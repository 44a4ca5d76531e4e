/** An input on which findlwp and findlwt do not agree. */
module WordExample {
  import opened CommonTypes
  import opened TextLines
  import opened WordRecords
  import opened RecordOrder
  import opened WordGroups
  import opened WordScan
  import opened WordStream

  /** A file of an empty line and a line with the one word "a", form feed, "5". */
  const TEXT: string := ['\n', 'a', FORM_FEED, '5']
  const WORD: string := ['a', FORM_FEED, '5']
  const INPUT: Files := [Some(TEXT)]

  lemma LinesOfText()
    ensures GetLines(TEXT, 0) == ["\n", WORD]
  {
    hide NextNewline;
    NewlineAt(TEXT, 0, 0);
    NewlineAt(TEXT, 1, 4);
    assert TEXT[0..1] == "\n" && TEXT[1..4] == WORD;
    assert GetLines(TEXT, 4) == [];
    assert GetLines(TEXT, 1) == [WORD] + GetLines(TEXT, 4);
  }

  lemma WordsOfFirstLine()
    ensures WordsOfLine("\n", 1, 1, 1) == []
  {
    hide Skip;
    CStringOfPlain("\n");
    SkipEnds("\n", 0, 1, IsDelimiter);
  }

  lemma WordsOfSecondLine()
    ensures WordsOfLine(WORD, 1, 1, 2) == [Occurrence(WORD, 1, 2)]
  {
    hide Skip;
    CStringOfPlain(WORD);
    SkipEnds(WORD, 0, 0, IsDelimiter);
    SkipEnds(WORD, 0, 3, IsTokenChar);
    SkipEnds(WORD, 3, 3, IsDelimiter);
    assert WORD[0..3] == WORD;
    assert Tokens(WORD, 3) == [];
    assert Tokens(WORD, 0) == [WORD];
    KeepOne(WORD, 1, 1, 2);
  }

  lemma KeepOne(word: string, k: nat, fileIndex: int32, lineNo: int32)
    requires |word| >= k
    ensures KeepLong([word], k, fileIndex, lineNo) == [Occurrence(word, fileIndex, lineNo)]
  {
    assert [word][1..] == [];
  }

  lemma TwoLines(a: string, b: string, k: nat, fileIndex: int32)
    ensures WordsOfLines([a, b], k, fileIndex, 0) == WordsOfLine(a, k, fileIndex, 1) + WordsOfLine(b, k, fileIndex, 2)
  {
    hide WordsOfLine;
    assert [a, b][1..] == [b] && [b][1..] == [];
    assert WordsOfLines([b], k, fileIndex, 1) == WordsOfLine(b, k, fileIndex, 2) + WordsOfLines([], k, fileIndex, 2);
  }

  lemma WordsOfText()
    ensures CountableLines(TEXT) && WordsOfFile(TEXT, 1, 1) == [Occurrence(WORD, 1, 2)]
  {
    hide WordsOfLine, WordsOfLines, GetLines;
    LinesOfText();
    WordsOfFirstLine();
    WordsOfSecondLine();
    TwoLines("\n", WORD, 1, 1);
  }

  lemma WordsOfInput()
    ensures Countable(INPUT) && AllWords(INPUT, 1, 1) == [Occurrence(WORD, 1, 2)]
    ensures ChildStreams(INPUT, 1, 1) == [Printed([Occurrence(WORD, 1, 2)])]
  {
    hide WordsOfFile, CountableLines, Printed;
    WordsOfText();
    assert WordsIn(INPUT, 0, 1) == [Occurrence(WORD, 1, 2)];
    assert AllWords(INPUT, 0, 1) == [] && ChildStreams(INPUT, 0, 1) == [];
  }

  /** However the bytes of the one child arrive, the two reports on this input differ. */
  lemma FormFeedDivides(chunks: seq<Chunk>)
    requires FromPipes(chunks, 1) && Streams(1, chunks) == [Printed([Occurrence(WORD, 1, 2)])]
    ensures Countable(INPUT) && ChildStreams(INPUT, 1, 1) == Streams(1, chunks)
    ensures Report(ReceiveAll(1, chunks).all) != Report(AllWords(INPUT, 1, 1))
  {
    hide Countable, ChildStreams, AllWords, Report, Streams, Printed, ReceiveAll;
    WordsOfInput();
    ProgramsAgreeIff(INPUT, 1, chunks);
    assert Odd(WORD[1]);
    assert HasOdd(AllWords(INPUT, 1, 1)[0].word);
  }

  /** findlwt reports the word as it is, on line 2 of file 1; the parent of findlwp has "a" on line 1 of file 5. */
  lemma WhatEachProgramFinds(chunks: seq<Chunk>)
    requires FromPipes(chunks, 1) && Streams(1, chunks) == [Printed([Occurrence(WORD, 1, 2)])]
    ensures Countable(INPUT) && AllWords(INPUT, 1, 1) == [Occurrence(WORD, 1, 2)]
    ensures multiset(ReceiveAll(1, chunks).all) == multiset{Occurrence("a", 5, 1)}
  {
    hide Countable, ChildStreams, AllWords, Streams, Printed, ReceiveAll, RecordsOf, Lines;
    WordsOfInput();
    DeliveryIsInvisible(1, chunks);
    FormFeedMisleads();
    var stream := Printed([Occurrence(WORD, 1, 2)]);
    assert [stream][..0] == [];
    assert RecordsOfStreams([stream]) == RecordsOfStreams([]) + multiset(RecordsOf(Lines(stream)));
  }

  // ---- A report ----

  const FOUND: seq<Occurrence> := [Occurrence("b", 1, 1), Occurrence("a", 2, 3), Occurrence("a", 1, 10)]
  const IN_ORDER: seq<Occurrence> := [Occurrence("a", 1, 10), Occurrence("a", 2, 3), Occurrence("b", 1, 1)]

  lemma FoundInOrder()
    ensures Sort(FOUND) == IN_ORDER
  {
    hide Sort;
    assert multiset(FOUND) == multiset(IN_ORDER);
    SortedIsSort(IN_ORDER, FOUND);
  }

  lemma FoundGroups()
    ensures Groups(IN_ORDER, 0) == [IN_ORDER[0..2], IN_ORDER[2..3]]
  {
    hide RunEnd;
    assert IN_ORDER[0].word == IN_ORDER[1].word && IN_ORDER[1].word != IN_ORDER[2].word;
    assert RunEnd(IN_ORDER, 1, "a") == 2 && RunEnd(IN_ORDER, 3, "b") == 3;
    assert Groups(IN_ORDER, 3) == [];
    assert Groups(IN_ORDER, 2) == [IN_ORDER[2..3]] + Groups(IN_ORDER, 3);
  }

  lemma FoundDecimals()
    ensures Decimal(1) == "1" && Decimal(2) == "2" && Decimal(3) == "3" && Decimal(10) == "10"
  {
    assert Digits(10) == Digits(1) + ['0' + 0 as char];
  }

  lemma LineOfA()
    ensures GroupLine(IN_ORDER[0..2]) == "a (count=2): 1-10, 2-3\n"
  {
    hide Decimal;
    FoundDecimals();
    var g: seq<Occurrence> := IN_ORDER[0..2];
    assert g[0] == IN_ORDER[0] && g[1..] == [IN_ORDER[1]];
    assert Places([IN_ORDER[1]]) == "2-3";
    assert Places(g) == "1" + "-" + "10" + ", " + "2-3";
  }

  lemma LineOfB()
    ensures GroupLine(IN_ORDER[2..3]) == "b (count=1): 1-1\n"
  {
    hide Decimal;
    FoundDecimals();
    var g: seq<Occurrence> := IN_ORDER[2..3];
    assert g == [IN_ORDER[2]];
    assert Places(g) == "1" + "-" + "1";
  }

  /** The report of three occurrences, character by character. */
  lemma FoundReport()
    ensures Report(FOUND) == "a (count=2): 1-10, 2-3\n" + "b (count=1): 1-1\n"
  {
    hide Sort, Groups, GroupLine;
    FoundInOrder();
    FoundGroups();
    LineOfA();
    LineOfB();
    var gs: seq<seq<Occurrence>> := [IN_ORDER[0..2], IN_ORDER[2..3]];
    assert gs[1..] == [IN_ORDER[2..3]] && gs[1..][1..] == [];
  }
}
