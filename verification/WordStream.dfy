/** The records of all children, reassembled by the parent from whatever its reads bring. */
module WordStream {
  import opened CommonTypes
  import opened TextLines
  import opened WordRecords
  import opened WordScan
  import opened WordGroups

  /** The occurrences that lines of text hold; lines that do not parse are dropped. */
  function RecordsOf(lines: seq<string>): seq<Occurrence> {
    if lines == [] then [] else Parsed(lines[0]) + RecordsOf(lines[1..])
  }

  function Parsed(line: string): seq<Occurrence> {
    var r := ParseRecord(CString(line));
    if r.Some? then [r.value] else []
  }

  lemma {:induction false} RecordsOfConcat(a: seq<string>, b: seq<string>)
    ensures RecordsOf(a + b) == RecordsOf(a) + RecordsOf(b)
  {
    hide Parsed;
    if a == [] {
      assert a + b == b;
    } else {
      RecordsOfConcat(a[1..], b);
      assert (a + b)[1..] == a[1..] + b && (a + b)[0] == a[0];
      assert RecordsOf(a + b) == Parsed(a[0]) + RecordsOf(a[1..] + b);
    }
  }

  // ---- What a child writes ----

  function Printed(os: seq<Occurrence>): string {
    if os == [] then "" else RecordLine(os[0]) + "\n" + Printed(os[1..])
  }

  function RecordLines(os: seq<Occurrence>): seq<string> {
    seq(|os|, i requires 0 <= i < |os| => RecordLine(os[i]))
  }

  lemma {:induction false} PrintedIsLines(os: seq<Occurrence>)
    requires forall i :: 0 <= i < |os| ==> '\n' !in os[i].word
    ensures Lines(Printed(os)) == RecordLines(os) && Rest(Printed(os)) == ""
  {
    hide Lines, Rest, Decimal;
    if os == [] {
      NoLine("");
    } else {
      PrintedIsLines(os[1..]);
      DecimalStartsInked(os[0].fileIndex);
      DecimalStartsInked(os[0].lineNo);
      CompleteLine(RecordLine(os[0]), Printed(os[1..]));
      assert RecordLines(os) == [RecordLine(os[0])] + RecordLines(os[1..]);
    }
  }

  /** What the parent will make of a child's words. */
  function ReadBack(os: seq<Occurrence>): seq<Occurrence> {
    RecordsOf(Lines(Printed(os)))
  }

  /** Words without vertical tabs and form feeds come back as they were. */
  lemma {:induction false} PlainWordsComeBack(os: seq<Occurrence>)
    requires forall i :: 0 <= i < |os| ==> Plain(os[i].word)
    ensures ReadBack(os) == os
  {
    hide Lines, Rest, ParseRecord, Plain;
    forall i | 0 <= i < |os| ensures '\n' !in os[i].word {
      PlainHasNoNewline(os[i].word);
    }
    PrintedIsLines(os);
    LinesComeBack(os);
  }

  lemma PlainHasNoNewline(w: string)
    requires Plain(w)
    ensures '\n' !in w
  {
  }

  lemma {:induction false} LinesComeBack(os: seq<Occurrence>)
    requires forall i :: 0 <= i < |os| ==> Plain(os[i].word)
    ensures RecordsOf(RecordLines(os)) == os
  {
    hide ParseRecord, Plain, CString, RecordLine;
    if os == [] {
    } else {
      assert RecordLines(os)[1..] == RecordLines(os[1..]);
      ParseInvertsPrint(os[0]);
      LinesComeBack(os[1..]);
      assert os == [os[0]] + os[1..];
    }
  }

  /** Whatever was written, only plain words are read. */
  lemma {:induction false} OnlyPlainIsRead(lines: seq<string>)
    ensures forall i :: 0 <= i < |RecordsOf(lines)| ==> Plain(RecordsOf(lines)[i].word)
  {
    hide ParseRecord, Plain;
    if lines == [] {
    } else {
      ParsedIsPlain(CString(lines[0]));
      OnlyPlainIsRead(lines[1..]);
    }
  }

  // ---- What the parent reads ----

  /** What one `read` brings: some bytes of one pipe, or none at its end. */
  datatype Chunk = Chunk(pipe: nat, bytes: string)

  /** What the parent has: each pipe's unfinished line, and all occurrences so far. */
  datatype Parent = Parent(rests: seq<string>, all: seq<Occurrence>)

  ghost predicate FromPipes(chunks: seq<Chunk>, n: nat) {
    forall i :: 0 <= i < |chunks| ==> chunks[i].pipe < n
  }

  function Receive(p: Parent, r: Chunk): Parent
    requires r.pipe < |p.rests|
  {
    var s := p.rests[r.pipe] + r.bytes;
    Parent(p.rests[r.pipe := Rest(s)], p.all + RecordsOf(Lines(s)))
  }

  ghost function ReceiveAll(n: nat, chunks: seq<Chunk>): (p: Parent)
    requires FromPipes(chunks, n)
    ensures |p.rests| == n
  {
    if chunks == [] then Parent(seq(n, _ => ""), [])
    else Receive(ReceiveAll(n, chunks[..|chunks| - 1]), chunks[|chunks| - 1])
  }

  /** All bytes of each pipe, in order. */
  ghost function Streams(n: nat, chunks: seq<Chunk>): (ss: seq<string>)
    requires FromPipes(chunks, n)
    ensures |ss| == n
  {
    if chunks == [] then seq(n, _ => "")
    else
      var ss, r := Streams(n, chunks[..|chunks| - 1]), chunks[|chunks| - 1];
      ss[r.pipe := ss[r.pipe] + r.bytes]
  }

  ghost function RecordsOfStreams(streams: seq<string>): multiset<Occurrence> {
    if streams == [] then multiset{}
    else
      var last := |streams| - 1;
      RecordsOfStreams(streams[..last]) + multiset(RecordsOf(Lines(streams[last])))
  }

  lemma {:induction false} OneStreamGrows(streams: seq<string>, i: nat, longer: string, more: seq<Occurrence>)
    requires i < |streams| && RecordsOf(Lines(longer)) == RecordsOf(Lines(streams[i])) + more
    ensures RecordsOfStreams(streams[i := longer]) == RecordsOfStreams(streams) + multiset(more)
  {
    hide RecordsOf, Lines;
    var after, last := streams[i := longer], |streams| - 1;
    if i == last {
      assert after[..last] == streams[..last];
    } else {
      assert after[..last] == streams[..last][i := longer];
      OneStreamGrows(streams[..last], i, longer, more);
    }
  }

  /**
   * However the streams are cut into chunks, and however the reads of different pipes are
   * interleaved, the parent gets the records of the whole streams.
   */
  lemma {:induction false} DeliveryIsInvisible(n: nat, chunks: seq<Chunk>)
    requires FromPipes(chunks, n)
    ensures var p, ss := ReceiveAll(n, chunks), Streams(n, chunks);
            && (forall i :: 0 <= i < n ==> p.rests[i] == Rest(ss[i]))
            && multiset(p.all) == RecordsOfStreams(ss)
    decreases |chunks|
  {
    hide RecordsOf, Lines, Rest;
    if chunks == [] {
      NoLine("");
      EmptyStreams(n);
    } else {
      var before, r := chunks[..|chunks| - 1], chunks[|chunks| - 1];
      DeliveryIsInvisible(n, before);
      var p, ss := ReceiveAll(n, before), Streams(n, before);
      var longer := ss[r.pipe] + r.bytes;
      LinesOfPieces(ss[r.pipe], r.bytes);
      var found := Lines(p.rests[r.pipe] + r.bytes);
      RecordsOfConcat(Lines(ss[r.pipe]), found);
      OneStreamGrows(ss, r.pipe, longer, RecordsOf(found));
    }
  }

  lemma {:induction false} EmptyStreams(n: nat)
    ensures RecordsOfStreams(seq(n, _ => "")) == multiset{}
  {
    NoLine("");
    if n == 0 {
    } else {
      EmptyStreams(n - 1);
      assert seq(n, _ => "")[..n - 1] == seq(n - 1, _ => "");
    }
  }

  // ---- Both programs ----

  /** The input files; one that cannot be opened is None. */
  type Files = seq<Option<string>>

  ghost predicate Countable(files: Files) {
    |files| <= 10 && forall i :: 0 <= i < |files| && files[i].Some? ==> CountableLines(files[i].value)
  }

  /** The words of file `i`, which is called number `i + 1`. */
  function WordsIn(files: Files, i: nat, k: nat): seq<Occurrence>
    requires Countable(files) && i < |files|
  {
    if files[i].None? then [] else WordsOfFile(files[i].value, k, i + 1)
  }

  /** Each worker's words, merged in the order of the files. */
  function AllWords(files: Files, n: nat, k: nat): seq<Occurrence>
    requires Countable(files) && n <= |files|
  {
    if n == 0 then [] else AllWords(files, n - 1, k) + WordsIn(files, n - 1, k)
  }

  /** What the first `n` children write to their pipes. */
  ghost function ChildStreams(files: Files, n: nat, k: nat): (ss: seq<string>)
    requires Countable(files) && n <= |files|
    ensures |ss| == n
  {
    if n == 0 then [] else ChildStreams(files, n - 1, k) + [Printed(WordsIn(files, n - 1, k))]
  }

  predicate NoneOdd(os: seq<Occurrence>) {
    forall i :: 0 <= i < |os| ==> !HasOdd(os[i].word)
  }

  lemma WordsInAreTokens(files: Files, i: nat, k: nat)
    requires Countable(files) && i < |files|
    ensures forall j :: 0 <= j < |WordsIn(files, i, k)| ==> Token(WordsIn(files, i, k)[j].word)
  {
    if files[i].Some? {
      WordsAreTokens(GetLines(files[i].value, 0), k, i + 1, 0);
    }
  }

  lemma TokenIsPlain(w: string)
    requires Token(w) && !HasOdd(w)
    ensures Plain(w)
  {
    forall j | 0 <= j < |w| ensures IsInk(w[j]) {
      assert IsTokenChar(w[j]) && !Odd(w[j]);
    }
  }

  /** With no odd word in any file, the pipes hold exactly the words of the files. */
  lemma {:induction false} StreamsHoldTheWords(files: Files, n: nat, k: nat)
    requires Countable(files) && n <= |files| && NoneOdd(AllWords(files, n, k))
    ensures RecordsOfStreams(ChildStreams(files, n, k)) == multiset(AllWords(files, n, k))
  {
    hide RecordsOf, Lines, HasOdd, Token, Plain, Printed, WordsIn;
    if n == 0 {
    } else {
      var os, rest := WordsIn(files, n - 1, k), AllWords(files, n - 1, k);
      assert forall j :: 0 <= j < |rest| ==> rest[j] == (rest + os)[j];
      assert forall j :: 0 <= j < |os| ==> os[j] == (rest + os)[|rest| + j];
      StreamsHoldTheWords(files, n - 1, k);
      WordsInAreTokens(files, n - 1, k);
      forall j | 0 <= j < |os| ensures Plain(os[j].word) {
        TokenIsPlain(os[j].word);
      }
      PlainWordsComeBack(os);
      assert ChildStreams(files, n, k)[..n - 1] == ChildStreams(files, n - 1, k);
    }
  }

  lemma {:induction false} OnlyPlainFromStreams(streams: seq<string>, o: Occurrence)
    requires o in RecordsOfStreams(streams)
    ensures Plain(o.word)
  {
    hide RecordsOf, Lines, Plain;
    var last := |streams| - 1;
    if o in multiset(RecordsOf(Lines(streams[last]))) {
      OnlyPlainIsRead(Lines(streams[last]));
    } else {
      OnlyPlainFromStreams(streams[..last], o);
    }
  }

  lemma PlainIsNotOdd(w: string)
    requires Plain(w)
    ensures !HasOdd(w)
  {
    assert forall j :: 0 <= j < |w| ==> IsInk(w[j]);
  }

  /**
   * The program with processes and pipes writes the same report as the one with threads
   * exactly if no word it keeps has a vertical tab or form feed, and that for every way
   * the children's bytes can arrive.
   */
  lemma ProgramsAgreeIff(files: Files, k: nat, chunks: seq<Chunk>)
    requires Countable(files) && FromPipes(chunks, |files|)
    requires Streams(|files|, chunks) == ChildStreams(files, |files|, k)
    ensures Report(ReceiveAll(|files|, chunks).all) == Report(AllWords(files, |files|, k)) <==>
            NoneOdd(AllWords(files, |files|, k))
  {
    hide Plain, HasOdd, Report, AllWords, Streams, RecordsOfStreams;
    var n := |files|;
    var got, words := ReceiveAll(n, chunks).all, AllWords(files, n, k);
    DeliveryIsInvisible(n, chunks);
    if NoneOdd(words) {
      StreamsHoldTheWords(files, n, k);
      ReportIsOfTheBag(got, words);
    } else {
      forall i | 0 <= i < |got| ensures !HasOdd(got[i].word) {
        assert got[i] in multiset(got);
        OnlyPlainFromStreams(Streams(n, chunks), got[i]);
        PlainIsNotOdd(got[i].word);
      }
      ReportHasOdd(got);
      ReportHasOdd(words);
    }
  }

  /** Such a word is not only lost: "a", form feed, "5" on line 2 of file 1 is read as "a" on line 1 of file 5. */
  lemma FormFeedMisleads()
    ensures ReadBack([Occurrence(['a', FORM_FEED, '5'], 1, 2)]) == [Occurrence("a", 5, 1)]
  {
    hide ParseRecord, Lines, Rest, Decimal;
    var o := Occurrence(['a', FORM_FEED, '5'], 1, 2);
    PrintedIsLines([o]);
    SmallDecimals();
    assert RecordLine(o) == ['a', FORM_FEED, '5', ' ', '1', ' ', '2'];
    CStringOfPlain(RecordLine(o));
    ParseOddRecord(RecordLine(o));
    OneLine(o, Occurrence("a", 5, 1));
  }

  lemma ParseOddRecord(s: string)
    requires s == ['a', FORM_FEED, '5', ' ', '1', ' ', '2']
    ensures ParseRecord(s) == Some(Occurrence("a", 5, 1))
  {
    hide Skip, StrToL, Decimal;
    SmallDecimals();
    assert s[0..1] == "a" && s[2..3] == "5" && s[4..5] == "1";
    SkipEnds(s, 0, 0, IsSpace);
    SkipEnds(s, 0, 1, IsInk);
    SkipEnds(s, 1, 2, IsSpace);
    StrToLReads(s, 2, 5, 3);
    SkipEnds(s, 3, 4, IsSpace);
    StrToLReads(s, 4, 1, 5);
  }

  lemma SmallDecimals()
    ensures Decimal(1) == "1" && Decimal(2) == "2" && Decimal(5) == "5"
  {
  }

  lemma OneLine(o: Occurrence, read: Occurrence)
    requires ParseRecord(CString(RecordLine(o))) == Some(read)
    ensures RecordsOf(RecordLines([o])) == [read]
  {
    hide ParseRecord, CString, RecordLine;
    assert RecordLines([o]) == [RecordLine(o)];
    assert RecordLines([o])[1..] == [];
  }
}
