/** The two word finders themselves: growing arrays, reassembly buffers, and the report loop. */
module WordFinder {
  import opened CommonTypes
  import opened TextLines
  import opened WordRecords
  import opened RecordOrder
  import opened WordGroups
  import opened WordScan
  import opened WordStream

  // ---- Growing array of occurrences ----

  class OccurrenceList {
    var data: array<Occurrence>
    var size: nat

    ghost predicate Valid()
      reads this
    {
      size <= data.Length
    }

    ghost function Contents(): seq<Occurrence>
      requires Valid()
      reads this, data
    {
      data[..size]
    }

    constructor ()
      ensures Valid() && Contents() == [] && fresh(data)
    {
      data := new Occurrence[0];
      size := 0;
    }

    /** `pipe_push` and `occ_push`: a full array is doubled first. */
    method Push(o: Occurrence)
      requires Valid()
      modifies this, data
      ensures Valid() && Contents() == old(Contents()) + [o]
      ensures data == old(data) || fresh(data)
    {
      ghost var s := Contents();
      if size == data.Length {
        var bigger := new Occurrence[if size == 0 then 256 else size * 2];
        for i := 0 to size
          modifies bigger
          invariant bigger[..i] == s[..i]
        {
          bigger[i] := data[i];
        }
        data := bigger;
      }
      data[size] := o;
      size := size + 1;
      assert data[..size] == s + [o];
    }

    /** `qsort` with `cmp_occurrence`: the array ends up sorted and holds the same occurrences. */
    method SortAll()
      requires Valid()
      modifies data
      ensures Sorted(Contents()) && multiset(Contents()) == multiset(old(Contents()))
    {
      hide Cmp;
      if size > 1 {
        for i := 1 to size
          invariant Sorted(data[..i])
          invariant SameBag(Contents(), old(Contents()))
        {
          hide Cmp;
          Sift(i);
        }
      }
    }

    /** Moves the element at `i` down to its place among the sorted ones before it. */
    method Sift(i: nat)
      requires Valid() && i < size && Sorted(data[..i])
      modifies data
      ensures Sorted(data[..i + 1]) && SameBag(Contents(), old(Contents()))
    {
      hide Cmp, Sorted, SortedBut, Swap, SameBag;
      ghost var before := Contents();
      assert before[..i] == data[..i];
      var j: nat := i;
      StartsSorted(before, i);
      while j > 0 && Cmp(data[j - 1], data[j]) > 0
        invariant j <= i && SortedBut(Contents(), i, j) && SameBag(Contents(), before)
      {
        hide Cmp, Sorted, SortedBut, Swap, SameBag;
        SwapDown(Contents(), before, i, j);
        SwapCells(j);
        j := j - 1;
      }
      InPlace(Contents(), i, j);
      assert Contents()[..i + 1] == data[..i + 1];
    }

    method SwapCells(j: nat)
      requires Valid() && 0 < j < size
      modifies data
      ensures Contents() == Swap(old(Contents()), j)
    {
      data[j - 1], data[j] := data[j], data[j - 1];
    }
  }

  // ---- Sifting, on the value of the array ----

  /** The first `i + 1` are in order but for the one at `j`, which may belong further down. */
  ghost predicate SortedBut(s: seq<Occurrence>, i: nat, j: nat) {
    i < |s| && forall a, b :: 0 <= a < b <= i && b != j ==> Cmp(s[a], s[b]) <= 0
  }

  ghost function Swap(s: seq<Occurrence>, j: nat): seq<Occurrence>
    requires 0 < j < |s|
  {
    s[j - 1 := s[j]][j := s[j - 1]]
  }

  ghost predicate SameBag(s: seq<Occurrence>, t: seq<Occurrence>) {
    multiset(s) == multiset(t)
  }

  lemma StartsSorted(s: seq<Occurrence>, i: nat)
    requires i < |s| && Sorted(s[..i])
    ensures SortedBut(s, i, i) && SameBag(s, s)
  {
    hide Cmp;
    assert forall a :: 0 <= a < i ==> s[..i][a] == s[a];
  }

  lemma SwapDown(s: seq<Occurrence>, before: seq<Occurrence>, i: nat, j: nat)
    requires 0 < j <= i && SortedBut(s, i, j) && SameBag(s, before) && Cmp(s[j - 1], s[j]) > 0
    ensures SortedBut(Swap(s, j), i, j - 1) && SameBag(Swap(s, j), before)
  {
    hide Cmp;
    var t := Swap(s, j);
    CmpIsTotalOrder(s[j], s[j - 1], s[j]);
    forall a, b | 0 <= a < b <= i && b != j - 1 ensures Cmp(t[a], t[b]) <= 0 {
      if a == j - 1 && b > j {
        assert Cmp(s[j], s[b]) <= 0;
      } else if a == j {
        assert Cmp(s[j - 1], s[b]) <= 0;
      } else if b == j && a < j - 1 {
        assert Cmp(s[a], s[j - 1]) <= 0;
      }
    }
  }

  lemma InPlace(s: seq<Occurrence>, i: nat, j: nat)
    requires j <= i && SortedBut(s, i, j) && (j == 0 || Cmp(s[j - 1], s[j]) <= 0)
    ensures Sorted(s[..i + 1])
  {
    hide Cmp;
    forall a | 0 <= a < j ensures Cmp(s[a], s[j]) <= 0 {
      if a < j - 1 {
        CmpIsTotalOrder(s[a], s[j - 1], s[j]);
      }
    }
  }

  // ---- Words of a file ----

  /** The loop over the lines of a file and over the tokens of each line. */
  method CollectWords(text: string, fileIndex: int32, k: nat, words: OccurrenceList)
    requires words.Valid() && CountableLines(text)
    modifies words, words.data
    ensures words.Valid() && (words.data == old(words.data) || fresh(words.data))
    ensures words.Contents() == old(words.Contents()) + WordsOfFile(text, k, fileIndex)
  {
    hide GetLines, WordsOfLines, NextNewline, Tokens, KeepLong, CString;
    ghost var all := WordsOfFile(text, k, fileIndex);
    var pos, lineNo: nat := 0, 0;
    while pos < |text|
      invariant pos <= |text| && lineNo + |GetLines(text, pos)| == |GetLines(text, 0)|
      invariant words.Valid() && (words.data == old(words.data) || fresh(words.data))
      invariant old(words.Contents()) + all ==
                words.Contents() + WordsOfLines(GetLines(text, pos), k, fileIndex, lineNo)
      decreases |text| - pos
    {
      hide GetLines, WordsOfLines, NextNewline, Tokens, KeepLong, CString;
      var n := NextNewline(text, pos);
      var next := if n == |text| then n else n + 1;
      WordsStep(text, pos, next, k, fileIndex, lineNo);
      ghost var before, line := words.Contents(), WordsOfLine(text[pos..next], k, fileIndex, lineNo + 1);
      lineNo := lineNo + 1;
      CollectTokens(CString(text[pos..next]), fileIndex, lineNo, k, words);
      pos := next;
      ghost var rest := WordsOfLines(GetLines(text, pos), k, fileIndex, lineNo);
      assert before + (line + rest) == (before + line) + rest;
    }
    NoMoreLines(text, k, fileIndex, lineNo);
  }

  lemma WordsStep(text: string, pos: nat, next: nat, k: nat, fileIndex: int32, done: nat)
    requires pos < |text| && done + |GetLines(text, pos)| <= 0x7fff_ffff
    requires var n := NextNewline(text, pos); next == if n == |text| then n else n + 1
    ensures pos < next <= |text| && |GetLines(text, pos)| == 1 + |GetLines(text, next)|
    ensures WordsOfLines(GetLines(text, pos), k, fileIndex, done) ==
            WordsOfLine(text[pos..next], k, fileIndex, done + 1) + WordsOfLines(GetLines(text, next), k, fileIndex, done + 1)
  {
    hide NextNewline, WordsOfLine;
    assert GetLines(text, pos)[1..] == GetLines(text, next);
  }

  lemma NoMoreLines(text: string, k: nat, fileIndex: int32, done: nat)
    requires done <= 0x7fff_ffff
    ensures GetLines(text, |text|) == [] && WordsOfLines([], k, fileIndex, done) == []
  {
  }

  method CollectTokens(line: string, fileIndex: int32, lineNo: int32, k: nat, words: OccurrenceList)
    requires words.Valid()
    modifies words, words.data
    ensures words.Valid() && (words.data == old(words.data) || fresh(words.data))
    ensures words.Contents() == old(words.Contents()) + KeepLong(Tokens(line, 0), k, fileIndex, lineNo)
  {
    hide Skip, KeepLong, Tokens;
    ghost var all := KeepLong(Tokens(line, 0), k, fileIndex, lineNo);
    var p := Skip(line, 0, IsDelimiter);
    DelimitersFirst(line, 0);
    while p < |line|
      invariant p <= |line| && (p < |line| ==> IsTokenChar(line[p]))
      invariant words.Valid() && (words.data == old(words.data) || fresh(words.data))
      invariant old(words.Contents()) + all ==
                words.Contents() + KeepLong(Tokens(line, p), k, fileIndex, lineNo)
      decreases |line| - p
    {
      hide Skip, KeepLong, Tokens;
      var end := Skip(line, p, IsTokenChar);
      var token := line[p..end];
      KeepLongStep(line, p, end, k, fileIndex, lineNo);
      if |token| >= k {
        words.Push(Occurrence(token, fileIndex, lineNo));
      }
      p := Skip(line, end, IsDelimiter);
    }
    NoMoreTokens(line, k, fileIndex, lineNo);
  }

  /** Delimiters in front change nothing. */
  lemma DelimitersFirst(line: string, from: nat)
    requires from <= |line|
    ensures Tokens(line, from) == Tokens(line, Skip(line, from, IsDelimiter))
  {
    var p := Skip(line, from, IsDelimiter);
    SkipEnds(line, p, p, IsDelimiter);
  }

  lemma NoMoreTokens(line: string, k: nat, fileIndex: int32, lineNo: int32)
    ensures KeepLong(Tokens(line, |line|), k, fileIndex, lineNo) == []
  {
  }

  lemma KeepLongStep(line: string, p: nat, end: nat, k: nat, fileIndex: int32, lineNo: int32)
    requires p < |line| && IsTokenChar(line[p]) && end == Skip(line, p, IsTokenChar)
    ensures p < end && KeepLong(Tokens(line, p), k, fileIndex, lineNo) ==
            (if end - p >= k then [Occurrence(line[p..end], fileIndex, lineNo)] else [])
            + KeepLong(Tokens(line, Skip(line, end, IsDelimiter)), k, fileIndex, lineNo)
  {
    hide Skip;
    SkipEnds(line, p, p, IsDelimiter);
    DelimitersFirst(line, end);
    assert Tokens(line, p) == [line[p..end]] + Tokens(line, end);
  }

  // ---- The child ----

  /** What one call of `write` comes to: some bytes taken, an interruption, or a failure. */
  datatype WriteResult = Accepted(n: nat) | Interrupted | Failed

  /**
   * `results` is what successive calls of `write` come to; `write` never takes more than it is
   * offered, and once `results` is used up it takes all of it. What is not used up is `left`.
   */
  method WriteToParent(buffer: string, dataLength: nat, results: seq<WriteResult>)
      returns (rc: int, pieces: seq<string>, left: seq<WriteResult>)
    requires 1 <= dataLength
    ensures rc == 0 || rc == -1
    ensures rc == 0 ==> Flatten(pieces) == buffer
    ensures Flatten(pieces) <= buffer
    ensures forall i :: 0 <= i < |pieces| ==> |pieces[i]| <= dataLength
    ensures |left| <= |results| && left == results[|results| - |left|..]
    ensures rc == -1 <==> Failed in results[..|results| - |left|]
  {
    pieces := [];
    var off, calls := 0, 0;
    while off < |buffer|
      invariant 0 <= off <= |buffer| && 0 <= calls <= |results| && Flatten(pieces) == buffer[..off]
      invariant forall i :: 0 <= i < |pieces| ==> |pieces[i]| <= dataLength
      invariant Failed !in results[..calls]
      decreases |results| - calls, |buffer| - off
    {
      var chunk := |buffer| - off;
      if chunk > dataLength {
        chunk := dataLength;
      }
      var written := chunk;
      if calls < |results| {
        var result := results[calls];
        assert results[..calls + 1] == results[..calls] + [result];
        calls := calls + 1;
        if result == Failed {
          return -1, pieces, results[calls..];
        }
        if result == Interrupted {
          continue;
        }
        written := if result.n < chunk then result.n else chunk;
      }
      OneMore(pieces, buffer[off..off + written]);
      assert buffer[..off + written] == buffer[..off] + buffer[off..off + written];
      pieces := pieces + [buffer[off..off + written]];
      off := off + written;
    }
    return 0, pieces, results[calls..];
  }

  lemma OneMore<T>(parts: seq<seq<T>>, part: seq<T>)
    ensures Flatten(parts + [part]) == Flatten(parts) + part
  {
    FlattenConcat(parts, [part]);
    assert Flatten([part]) == part + Flatten([]);
  }

  /** A child finds the words of its file and writes one record for each, whatever the writes return. */
  method Child(file: Option<string>, fileIndex: int32, k: nat, dataLength: nat, results: seq<WriteResult>)
      returns (pieces: seq<string>)
    requires 1 <= dataLength && (file.Some? ==> CountableLines(file.value))
    ensures Failed !in results ==>
              Flatten(pieces) == Printed(if file.None? then [] else WordsOfFile(file.value, k, fileIndex))
    ensures forall i :: 0 <= i < |pieces| ==> |pieces[i]| <= dataLength
  {
    hide WordsOfFile, CountableLines, RecordLine, Printed, Flatten;
    pieces := [];
    PrintedEmpty();
    if file.None? {
      return;
    }
    var words := new OccurrenceList();
    CollectWords(file.value, fileIndex, k, words);
    ghost var all := words.Contents();
    assert all[0..] == all;
    var left := results;
    for i := 0 to words.size
      invariant words.Valid() && all == words.Contents()
      invariant Failed !in results ==> Failed !in left && Flatten(pieces) + Printed(all[i..]) == Printed(all)
      invariant forall i :: 0 <= i < |pieces| ==> |pieces[i]| <= dataLength
    {
      hide WordsOfFile, CountableLines, RecordLine, Printed, Flatten;
      var record := RecordLine(words.data[i]) + "\n";
      var rc, more, unused := WriteToParent(record, dataLength, left);
      assert rc == -1 ==> Failed in left;
      FlattenConcat(pieces, more);
      pieces := pieces + more;
      left := unused;
      PrintedStep(all, i);
    }
    assert all[words.size..] == [];
  }

  lemma PrintedStep(os: seq<Occurrence>, i: nat)
    requires i < |os|
    ensures Printed(os[i..]) == RecordLine(os[i]) + "\n" + Printed(os[i + 1..])
  {
    assert os[i..][1..] == os[i + 1..];
  }

  lemma PrintedEmpty()
    ensures Printed([]) == "" && Flatten<char>([]) == ""
  {
  }

  // ---- The parent ----

  /** `parse_record_line`, on the characters before the NUL that ends `line`. */
  method ParseRecordLine(line: string) returns (r: Option<Occurrence>)
    ensures r == ParseRecord(line)
  {
    hide StrToL;
    var p := 0;
    while p < |line| && IsSpace(line[p])
      invariant p <= |line| && Skip(line, p, IsSpace) == Skip(line, 0, IsSpace)
    {
      p := p + 1;
    }
    if p == |line| {
      return None;
    }
    var start := p;
    while p < |line| && !IsSpace(line[p])
      invariant start <= p <= |line| && Skip(line, p, IsInk) == Skip(line, start, IsInk)
    {
      p := p + 1;
    }
    if p == start {
      return None;
    }
    var word := line[start..p];
    ghost var end := p;
    while p < |line| && IsSpace(line[p])
      invariant end <= p <= |line| && Skip(line, p, IsSpace) == Skip(line, end, IsSpace)
    {
      p := p + 1;
    }
    if p == |line| {
      return None;
    }
    var file := StrToL(line, p);
    if file.None? {
      return None;
    }
    p := file.value.1;
    ghost var numberEnd := p;
    while p < |line| && IsSpace(line[p])
      invariant numberEnd <= p <= |line| && Skip(line, p, IsSpace) == Skip(line, numberEnd, IsSpace)
    {
      p := p + 1;
    }
    if p == |line| {
      return None;
    }
    var number := StrToL(line, p);
    if number.None? {
      return None;
    }
    return Some(Occurrence(word, ToInt(file.value.0), ToInt(number.value.0)));
  }

  /** The bytes of one pipe that are not yet a whole line, in a buffer that grows by doubling. */
  class LineBuffer {
    var data: array<char>
    var len: nat

    ghost predicate Valid()
      reads this
    {
      len <= data.Length
    }

    ghost function Contents(): string
      requires Valid()
      reads this, data
    {
      data[..len]
    }

    constructor ()
      ensures Valid() && Contents() == "" && fresh(data)
    {
      data := new char[0];
      len := 0;
    }

    /** Makes room for `needed` bytes. */
    method Grow(needed: nat)
      requires Valid() && needed > data.Length
      modifies `data
      ensures Valid() && fresh(data) && needed <= data.Length && Contents() == old(Contents())
    {
      ghost var s := Contents();
      var capacity := if data.Length == 0 then 1024 else data.Length * 2;
      while capacity < needed
        invariant data.Length < capacity
        decreases needed - capacity
      {
        capacity := capacity * 2;
      }
      var bigger := new char[capacity];
      for i := 0 to len
        modifies bigger
        invariant bigger[..i] == s[..i]
      {
        bigger[i] := data[i];
      }
      data := bigger;
    }

    /** There is always a byte left for the NUL after the contents. */
    method Append(bytes: string)
      requires Valid()
      modifies this, data
      ensures Valid() && len < data.Length && Contents() == old(Contents()) + bytes
      ensures data == old(data) || fresh(data)
    {
      ghost var s := Contents();
      if len + |bytes| + 1 > data.Length {
        Grow(len + |bytes| + 1);
      }
      for i := 0 to |bytes|
        modifies data
        invariant data[..len + i] == s + bytes[..i]
      {
        data[len + i] := bytes[i];
      }
      len := len + |bytes|;
      data[len] := '\0';
    }

    /** Ends each complete line with a NUL, parses it, and moves what follows the last one to the front. */
    method TakeRecords(all: OccurrenceList)
      requires Valid() && len < data.Length && all.Valid()
      modifies this, data, all, all.data
      ensures Valid() && data == old(data) && Contents() == Rest(old(Contents()))
      ensures all.Valid() && all.Contents() == old(all.Contents()) + RecordsOf(Lines(old(Contents())))
      ensures all.data == old(all.data) || fresh(all.data)
    {
      hide RecordsOf, Lines, Rest, Parsed, NextNewline;
      ghost var s := Contents();
      var start := 0;
      var nl := NextNewline(data[..len], 0);
      assert s[0..] == s;
      while nl < len
        invariant start <= nl <= len && len == old(len) && data == old(data) && forall k :: start <= k < len ==> data[k] == s[k]
        invariant nl == NextNewline(data[..len], start)
        invariant all.Valid() && (all.data == old(all.data) || fresh(all.data))
        invariant Rest(s[start..]) == Rest(s)
        invariant all.Contents() + RecordsOf(Lines(s[start..])) == old(all.Contents()) + RecordsOf(Lines(s))
        modifies data, all, all.data
        decreases len - start
      {
        hide RecordsOf, Lines, Rest, Parsed, NextNewline;
        LineStep(s, start, nl);
        assert data[start..nl] == s[start..nl];
        TakeLine(start, nl, all);
        start := nl + 1;
        nl := NextNewline(data[..len], start);
      }
      assert Contents()[start..] == s[start..];
      NoLine(s[start..]);
      NoRecords();
      Compact(start);
    }

    /** Ends the line from `start` to its newline at `nl` with a NUL and parses it. */
    method TakeLine(start: nat, nl: nat, all: OccurrenceList)
      requires Valid() && start <= nl < len && all.Valid()
      modifies data, all, all.data
      ensures forall k :: nl < k < len ==> data[k] == old(data[k])
      ensures all.Valid() && (all.data == old(all.data) || fresh(all.data))
      ensures all.Contents() == old(all.Contents()) + Parsed(old(data[start..nl]))
    {
      hide ParseRecord, CString;
      ghost var line := data[start..nl];
      data[nl] := '\0';
      assert data[start..nl] == line;
      var r := ParseRecordLine(CString(data[start..nl]));
      if r.Some? {
        all.Push(r.value);
      }
    }

    /** Moves what follows `start` to the front. */
    method Compact(start: nat)
      requires Valid() && start <= len < data.Length
      modifies `len, data
      ensures Valid() && Contents() == old(Contents()[start..])
    {
      ghost var rest := data[start..len];
      var remaining := len - start;
      if remaining > 0 && start != 0 {
        for i := 0 to remaining
          modifies data
          invariant forall k :: 0 <= k < i ==> data[k] == rest[k]
          invariant forall k :: start + i <= k < len ==> data[k] == rest[k - start]
        {
          data[i] := data[start + i];
        }
      }
      len := remaining;
      data[len] := '\0';
    }
  }

  lemma NoRecords()
    ensures RecordsOf([]) == []
  {
  }

  /** The line from `start` up to its newline at `nl`. */
  lemma LineStep(s: string, start: nat, nl: nat)
    requires start <= nl < |s| && s[nl] == '\n' && forall k :: start <= k < nl ==> s[k] != '\n'
    ensures Rest(s[start..]) == Rest(s[nl + 1..])
    ensures RecordsOf(Lines(s[start..])) == Parsed(s[start..nl]) + RecordsOf(Lines(s[nl + 1..]))
  {
    hide Lines, Rest, Parsed;
    CompleteLine(s[start..nl], s[nl + 1..]);
    assert s[start..] == s[start..nl] + "\n" + s[nl + 1..];
  }

  ghost predicate Separate(buffers: seq<LineBuffer>)
    reads buffers
  {
    forall i, j :: 0 <= i < j < |buffers| ==> buffers[i] != buffers[j] && buffers[i].data != buffers[j].data
  }

  /** Each pipe's buffer holds its unfinished line. */
  ghost predicate Holding(buffers: seq<LineBuffer>, rests: seq<string>)
    reads buffers, set k | 0 <= k < |buffers| :: buffers[k].data
  {
    && |buffers| == |rests| && Separate(buffers)
    && forall k :: 0 <= k < |buffers| ==> buffers[k].Valid() && buffers[k].Contents() == rests[k]
  }

  method OpenBuffers(n: nat) returns (buffers: seq<LineBuffer>)
    ensures Holding(buffers, seq(n, _ => ""))
    ensures forall k :: 0 <= k < n ==> fresh(buffers[k]) && fresh(buffers[k].data)
  {
    buffers := [];
    for i := 0 to n
      invariant |buffers| == i && Separate(buffers)
      invariant forall k :: 0 <= k < i ==> fresh(buffers[k]) && fresh(buffers[k].data)
      invariant forall k :: 0 <= k < i ==> buffers[k].Valid() && buffers[k].Contents() == ""
    {
      var b := new LineBuffer();
      buffers := buffers + [b];
    }
  }

  method ReceiveBytes(buffers: seq<LineBuffer>, i: nat, bytes: string, all: OccurrenceList, ghost rests: seq<string>)
    requires i < |buffers| && Holding(buffers, rests) && all.Valid()
    modifies buffers[i], buffers[i].data, all, all.data
    ensures var p := Receive(Parent(rests, old(all.Contents())), Chunk(i, bytes));
            all.Valid() && all.Contents() == p.all && Holding(buffers, p.rests)
    ensures all.data == old(all.data) || fresh(all.data)
    ensures buffers[i].data == old(buffers[i].data) || fresh(buffers[i].data)
  {
    hide Rest, Lines, RecordsOf;
    buffers[i].Append(bytes);
    buffers[i].TakeRecords(all);
  }

  /** Once a pipe has brought nothing, it is closed and not read again. */
  ghost predicate EndsOnce(chunks: seq<Chunk>) {
    forall i, j :: 0 <= i < j < |chunks| && chunks[i].pipe == chunks[j].pipe ==> chunks[i].bytes != ""
  }

  lemma {:induction false} NothingChangesNothing(n: nat, chunks: seq<Chunk>, i: nat)
    requires FromPipes(chunks, n) && i < n
    ensures var p := ReceiveAll(n, chunks);
            '\n' !in p.rests[i] && Receive(p, Chunk(i, "")) == p
  {
    hide RecordsOf, Lines, Rest;
    var p := ReceiveAll(n, chunks);
    DeliveryIsInvisible(n, chunks);
    NoLine(p.rests[i]);
    NoRecords();
    assert p.rests[i] + "" == p.rests[i];
  }

  /** The parent's loop over whatever `select` and `read` bring. */
  method Gather(n: nat, chunks: seq<Chunk>) returns (all: OccurrenceList)
    requires FromPipes(chunks, n) && EndsOnce(chunks)
    ensures fresh(all) && fresh(all.data) && all.Valid()
    ensures all.Contents() == ReceiveAll(n, chunks).all
  {
    hide Holding, Rest, Lines, RecordsOf;
    all := new OccurrenceList();
    var buffers := OpenBuffers(n);
    HoldingIsPerPipe(buffers, seq(n, _ => ""));
    var closed := new bool[n](_ => false);
    for next := 0 to |chunks|
      invariant fresh(all) && fresh(all.data) && all.Valid() && |buffers| == n && closed.Length == n
      invariant forall k :: 0 <= k < n ==> fresh(buffers[k]) && fresh(buffers[k].data)
      invariant forall k :: 0 <= k < n && closed[k] ==> exists j :: 0 <= j < next && chunks[j] == Chunk(k, "")
      invariant all.Contents() == ReceiveAll(n, chunks[..next]).all
      invariant Holding(buffers, ReceiveAll(n, chunks[..next]).rests)
    {
      hide Holding, Rest, Lines, RecordsOf, Receive;
      var i := chunks[next].pipe;
      ghost var p := ReceiveAll(n, chunks[..next]);
      assert chunks[..next + 1][..next] == chunks[..next];
      assert ReceiveAll(n, chunks[..next + 1]) == Receive(p, chunks[next]);
      if closed[i] {
        assert false;
      } else if chunks[next].bytes == "" {
        NothingChangesNothing(n, chunks[..next], i);
        closed[i] := true;
      } else {
        ReceiveBytes(buffers, i, chunks[next].bytes, all, p.rests);
      }
    }
    assert chunks[..|chunks|] == chunks;
  }

  lemma HoldingIsPerPipe(buffers: seq<LineBuffer>, rests: seq<string>)
    requires Holding(buffers, rests)
    ensures |buffers| == |rests|
  {
  }

  // ---- The report and the two programs ----

  /** "file-line" for all from `i` to `j`. */
  method WritePlaces(all: OccurrenceList, i: nat, j: nat) returns (out: string)
    requires all.Valid() && i <= j <= all.size
    ensures out == Places(all.Contents()[i..j])
  {
    hide Decimal, Places;
    ghost var s := all.Contents();
    out := "";
    PlacesEnd();
    for k := i to j
      invariant out + Places(s[k..j]) == Places(s[i..j])
    {
      hide Decimal, Places;
      ghost var g := s[k..j];
      PlacesStep(g);
      assert g[1..] == s[k + 1..j] && g[0] == s[k];
      var place := Decimal(all.data[k].fileIndex) + "-" + Decimal(all.data[k].lineNo);
      if k + 1 < j {
        place := place + ", ";
      }
      out := out + place;
    }
    assert s[j..j] == [];
  }

  lemma PlacesStep(g: seq<Occurrence>)
    requires g != []
    ensures var place := Decimal(g[0].fileIndex) + "-" + Decimal(g[0].lineNo);
            Places(g) == (if |g| > 1 then place + ", " else place) + Places(g[1..])
  {
    hide Decimal;
    if |g| == 1 {
      PlacesEnd();
      assert g[1..] == [];
    }
  }

  lemma PlacesEnd()
    ensures Places([]) == ""
  {
  }

  /** The grouping loop. */
  method WriteReport(all: OccurrenceList) returns (out: string)
    requires all.Valid()
    ensures out == Render(Groups(all.Contents(), 0))
  {
    hide Render, Groups, GroupLine, Decimal, Places;
    ghost var s := all.Contents();
    out := "";
    var i := 0;
    while i < all.size
      invariant i <= all.size
      invariant out + Render(Groups(s, i)) == Render(Groups(s, 0))
      decreases all.size - i
    {
      hide Render, Groups, GroupLine, Decimal, Places;
      var j := i + 1;
      while j < all.size && all.data[j].word == all.data[i].word
        invariant i < j <= all.size && RunEnd(s, j, s[i].word) == RunEnd(s, i + 1, s[i].word)
      {
        j := j + 1;
      }
      GroupsStep(s, i, j);
      var count := j - i;
      var line := all.data[i].word + " (count=" + Decimal(count) + "): ";
      var places := WritePlaces(all, i, j);
      out := out + (line + places + "\n");
      i := j;
    }
    GroupsEnd(s);
  }

  lemma GroupsStep(s: seq<Occurrence>, i: nat, j: nat)
    requires i < |s| && j == RunEnd(s, i + 1, s[i].word)
    ensures Render(Groups(s, i)) ==
            s[i].word + " (count=" + Decimal(j - i) + "): " + Places(s[i..j]) + "\n" + Render(Groups(s, j))
  {
    hide RunEnd, Decimal, Places;
    assert s[i..j][0] == s[i] && |s[i..j]| == j - i;
    assert Groups(s, i)[1..] == Groups(s, j);
  }

  lemma GroupsEnd(s: seq<Occurrence>)
    ensures Render(Groups(s, |s|)) == ""
  {
  }

  /** What both programs do with all occurrences at the end. */
  method SortAndReport(all: OccurrenceList) returns (out: string)
    requires all.Valid()
    modifies all.data
    ensures out == Report(old(all.Contents()))
  {
    hide Render, Groups, Sort, Cmp;
    ghost var found := all.Contents();
    all.SortAll();
    SortedIsSort(all.Contents(), found);
    out := WriteReport(all);
  }

  /** Adds one worker's words to the merged list. */
  method Merge(all: OccurrenceList, result: OccurrenceList)
    requires all.Valid() && result.Valid() && all != result && all.data != result.data
    modifies all, all.data
    ensures all.Valid() && all.Contents() == old(all.Contents()) + result.Contents()
    ensures all.data == old(all.data) || fresh(all.data)
  {
    ghost var added := result.Contents();
    for j := 0 to result.size
      invariant all.Valid() && (all.data == old(all.data) || fresh(all.data))
      invariant result.Valid() && result.data == old(result.data) && result.Contents() == added && all.data != result.data
      invariant result.size == |added|
      invariant all.Contents() == old(all.Contents()) + added[..j]
    {
      assert added[..j + 1] == added[..j] + [result.data[j]];
      all.Push(result.data[j]);
    }
  }

  /** A worker thread: the words of its file, if it can be opened. */
  method Worker(files: Files, i: nat, k: nat) returns (result: OccurrenceList)
    requires Countable(files) && i < |files|
    ensures fresh(result) && fresh(result.data) && result.Valid() && result.Contents() == WordsIn(files, i, k)
  {
    hide WordsOfFile, CountableLines;
    result := new OccurrenceList();
    if files[i].Some? {
      CollectWords(files[i].value, i + 1, k, result);
    }
  }

  lemma AllWordsStep(files: Files, i: nat, k: nat)
    requires Countable(files) && i < |files|
    ensures AllWords(files, i + 1, k) == AllWords(files, i, k) + WordsIn(files, i, k)
  {
  }

  /** findlwt: the workers' words merged, sorted and grouped. */
  method FindWithThreads(files: Files, k: nat) returns (out: string)
    requires Countable(files)
    ensures out == Report(AllWords(files, |files|, k))
  {
    hide Countable, Report, AllWords, WordsIn;
    var all := new OccurrenceList();
    NoFilesNoWords(files, k);
    for i := 0 to |files|
      invariant fresh(all) && fresh(all.data) && all.Valid()
      invariant all.Contents() == AllWords(files, i, k)
    {
      hide Countable, Report, AllWords, WordsIn;
      var result := Worker(files, i, k);
      Merge(all, result);
      AllWordsStep(files, i, k);
    }
    out := SortAndReport(all);
  }

  lemma NoFilesNoWords(files: Files, k: nat)
    requires Countable(files)
    ensures AllWords(files, 0, k) == []
  {
  }

  // ---- findlwp from end to end ----

  /** Each child has written the records of its file's words, in whatever pieces. */
  ghost predicate Carried(files: Files, k: nat, written: seq<seq<string>>)
    requires Countable(files)
  {
    |written| == |files| && forall i :: 0 <= i < |files| ==> Flatten(written[i]) == Printed(WordsIn(files, i, k))
  }

  /** The chunks bring each pipe's bytes, in order, in whatever chunking and interleaving. */
  ghost predicate Delivered(written: seq<seq<string>>, chunks: seq<Chunk>) {
    FromPipes(chunks, |written|) &&
    forall i :: 0 <= i < |written| ==> Streams(|written|, chunks)[i] == Flatten(written[i])
  }

  lemma {:induction false} ChildStreamAt(files: Files, n: nat, k: nat, i: nat)
    requires Countable(files) && i < n <= |files|
    ensures ChildStreams(files, n, k)[i] == Printed(WordsIn(files, i, k))
  {
    hide Printed, WordsIn, Countable;
    if i == n - 1 {
    } else {
      ChildStreamAt(files, n - 1, k, i);
    }
  }

  /** Whatever pieces the children write, and however these arrive, the reports agree exactly if no word is odd. */
  lemma EndToEnd(files: Files, k: nat, written: seq<seq<string>>, chunks: seq<Chunk>)
    requires Countable(files) && Carried(files, k, written) && Delivered(written, chunks)
    ensures FromPipes(chunks, |files|)
    ensures Report(ReceiveAll(|files|, chunks).all) == Report(AllWords(files, |files|, k)) <==>
            NoneOdd(AllWords(files, |files|, k))
  {
    hide Countable, Report, AllWords, NoneOdd, Printed, WordsIn, Flatten, Streams, ChildStreams, FromPipes;
    var n := |files|;
    forall i | 0 <= i < n ensures Streams(n, chunks)[i] == ChildStreams(files, n, k)[i] {
      ChildStreamAt(files, n, k, i);
    }
    assert Streams(n, chunks) == ChildStreams(files, n, k);
    ProgramsAgreeIff(files, k, chunks);
  }

  method RunChildren(files: Files, k: nat, dataLength: nat, results: seq<seq<WriteResult>>)
      returns (written: seq<seq<string>>)
    requires Countable(files) && 1 <= dataLength && |results| == |files|
    requires forall i :: 0 <= i < |results| ==> Failed !in results[i]
    ensures Carried(files, k, written)
  {
    hide WordsOfFile, Printed, Flatten, CountableLines;
    written := [];
    for i := 0 to |files|
      invariant |written| == i && forall j :: 0 <= j < i ==> Flatten(written[j]) == Printed(WordsIn(files, j, k))
    {
      hide WordsOfFile, Printed, Flatten, CountableLines;
      var pieces := Child(files[i], i + 1, k, dataLength, results[i]);
      written := written + [pieces];
    }
  }

  /** Some of each stream has been read as `chunks`; `left` is still in the pipes. */
  ghost predicate InTransit(streams: seq<string>, chunks: seq<Chunk>, left: seq<string>, closed: seq<bool>) {
    && |left| == |closed| == |streams| && FromPipes(chunks, |streams|) && EndsOnce(chunks)
    && (forall i :: 0 <= i < |streams| ==> Streams(|streams|, chunks)[i] + left[i] == streams[i])
    && (forall j :: 0 <= j < |chunks| && chunks[j].bytes == "" ==> closed[chunks[j].pipe])
  }

  lemma OneRead(streams: seq<string>, chunks: seq<Chunk>, left: seq<string>, closed: seq<bool>, p: nat, take: nat)
    requires InTransit(streams, chunks, left, closed) && p < |streams| && !closed[p]
    requires take <= |left[p]| && (take == 0 ==> left[p] == "")
    ensures InTransit(streams, chunks + [Chunk(p, left[p][..take])], left[p := left[p][take..]],
                      closed[p := closed[p] || take == 0])
  {
    var after := chunks + [Chunk(p, left[p][..take])];
    assert after[..|after| - 1] == chunks;
    assert left[p] == left[p][..take] + left[p][take..];
    assert FromPipes(after, |streams|);
    forall i | 0 <= i < |streams|
      ensures Streams(|streams|, after)[i] + left[p := left[p][take..]][i] == streams[i]
    {
    }
  }

  /** `read` on one pipe: at most `most` bytes of what is there, or nothing at its end. */
  method ReadOnce(ghost streams: seq<string>, chunks: seq<Chunk>, left: seq<string>, closed: seq<bool>, p: nat, most: nat)
      returns (chunks': seq<Chunk>, left': seq<string>, closed': seq<bool>)
    requires InTransit(streams, chunks, left, closed) && p < |streams| && !closed[p] && 1 <= most
    ensures InTransit(streams, chunks', left', closed')
    ensures if left[p] == "" then closed' == closed[p := true] && left' == left
            else closed' == closed && |left'[p]| < |left[p]| && forall i :: 0 <= i < |left| && i != p ==> left'[i] == left[i]
  {
    hide InTransit;
    TransitSizes(streams, chunks, left, closed);
    var take := if |left[p]| < most then |left[p]| else most;
    OneRead(streams, chunks, left, closed, p, take);
    assert left[p] == "" ==> left[p][take..] == left[p];
    return chunks + [Chunk(p, left[p][..take])], left[p := left[p][take..]], closed[p := closed[p] || take == 0];
  }

  lemma TransitSizes(streams: seq<string>, chunks: seq<Chunk>, left: seq<string>, closed: seq<bool>)
    requires InTransit(streams, chunks, left, closed)
    ensures |left| == |closed| == |streams|
  {
  }

  /**
   * The pipes between children and parent. `schedule` says which pipe each `read` is made on and
   * how many bytes it can have at most just then; afterwards each pipe is read to its end.
   */
  method Deliver(written: seq<seq<string>>, dataLength: nat, schedule: seq<(nat, nat)>) returns (chunks: seq<Chunk>)
    requires 1 <= dataLength
    ensures Delivered(written, chunks) && EndsOnce(chunks)
  {
    hide InTransit, Flatten;
    var n := |written|;
    var left := seq(n, i requires 0 <= i < n => Flatten(written[i]));
    ghost var streams := left;
    var closed := seq(n, _ => false);
    chunks := [];
    NothingRead(streams, closed);
    for s := 0 to |schedule|
      invariant InTransit(streams, chunks, left, closed) && |left| == |closed| == n
      invariant forall i :: 0 <= i < n && closed[i] ==> left[i] == ""
    {
      hide InTransit, Flatten;
      var (p, some) := schedule[s];
      if p < n && !closed[p] && some > 0 {
        chunks, left, closed := ReadOnce(streams, chunks, left, closed, p, if some < dataLength then some else dataLength);
        TransitSizes(streams, chunks, left, closed);
      }
    }
    for p := 0 to n
      invariant InTransit(streams, chunks, left, closed) && |left| == |closed| == n
      invariant forall i :: 0 <= i < n && closed[i] ==> left[i] == ""
      invariant forall i :: 0 <= i < p ==> closed[i]
    {
      hide InTransit, Flatten;
      while !closed[p]
        invariant InTransit(streams, chunks, left, closed) && |left| == |closed| == n
        invariant forall i :: 0 <= i < n && closed[i] ==> left[i] == ""
        invariant forall i :: 0 <= i < p ==> closed[i]
        decreases !closed[p], |left[p]|
      {
        hide InTransit, Flatten;
        chunks, left, closed := ReadOnce(streams, chunks, left, closed, p, dataLength);
        TransitSizes(streams, chunks, left, closed);
      }
    }
    AllRead(written, streams, chunks, left, closed);
  }

  lemma NothingRead(streams: seq<string>, closed: seq<bool>)
    requires |closed| == |streams|
    ensures InTransit(streams, [], streams, closed)
  {
  }

  lemma AllRead(written: seq<seq<string>>, streams: seq<string>, chunks: seq<Chunk>, left: seq<string>, closed: seq<bool>)
    requires InTransit(streams, chunks, left, closed) && |streams| == |written|
    requires forall i :: 0 <= i < |streams| ==> streams[i] == Flatten(written[i]) && left[i] == ""
    ensures Delivered(written, chunks) && EndsOnce(chunks)
  {
    forall i | 0 <= i < |written| ensures Streams(|written|, chunks)[i] == Flatten(written[i]) {
      assert Streams(|written|, chunks)[i] + left[i] == Streams(|written|, chunks)[i];
    }
  }

  /**
   * findlwp: the children run, their pieces come through the pipes, the parent gathers, sorts and
   * groups. However writes are accepted and reads arrive, the report is that of findlwt exactly
   * if no kept word has a vertical tab or form feed.
   */
  method FindWithProcesses(files: Files, k: nat, dataLength: nat, results: seq<seq<WriteResult>>, schedule: seq<(nat, nat)>)
      returns (out: string)
    requires Countable(files) && 1 <= dataLength && |results| == |files|
    requires forall i :: 0 <= i < |results| ==> Failed !in results[i]
    ensures out == Report(AllWords(files, |files|, k)) <==> NoneOdd(AllWords(files, |files|, k))
  {
    hide Countable, Render, Groups, Sort, AllWords, NoneOdd, EndsOnce, FromPipes, Cmp;
    var written := RunChildren(files, k, dataLength, results);
    var chunks := Deliver(written, dataLength, schedule);
    EndToEnd(files, k, written, chunks);
    var all := Gather(|files|, chunks);
    out := SortAndReport(all);
  }
}
