/** Occurrences of words, as one line of text per occurrence. */
module WordRecords {
  import opened CommonTypes
  import opened TextLines

  datatype Occurrence = Occurrence(word: string, fileIndex: int32, lineNo: int32)

  const VERTICAL_TAB: char := '\U{0B}'
  const FORM_FEED: char := '\U{0C}'

  /** `isspace` in the C locale. */
  predicate IsSpace(c: char) {
    c == ' ' || c == '\t' || c == '\n' || c == VERTICAL_TAB || c == FORM_FEED || c == '\r'
  }

  predicate IsInk(c: char) {
    !IsSpace(c)
  }

  predicate IsDigit(c: char) {
    '0' <= c <= '9'
  }

  /** First place from `from` on whose character is not of the kind, or the end. */
  function Skip(s: string, from: nat, kind: char -> bool): (p: nat)
    requires from <= |s|
    ensures from <= p <= |s| && (p < |s| ==> !kind(s[p]))
    ensures forall k :: from <= k < p ==> kind(s[k])
    decreases |s| - from
  {
    if from < |s| && kind(s[from]) then Skip(s, from + 1, kind) else from
  }

  // ---- Numbers ----

  function Digits(n: nat): string {
    if n < 10 then ['0' + n as char] else Digits(n / 10) + ['0' + (n % 10) as char]
  }

  /** `%d`. */
  function Decimal(n: int): string {
    if n < 0 then "-" + Digits(-n) else Digits(n)
  }

  function DigitsValue(s: string): nat {
    if s == "" then 0
    else
      var c := s[|s| - 1];
      DigitsValue(s[..|s| - 1]) * 10 + if IsDigit(c) then c as int - '0' as int else 0
  }

  const LONG_MAX := 0x7fff_ffff_ffff_ffff

  /** `strtol` in base 10: the value, held within a `long`, and where the number ends. */
  function StrToL(s: string, from: nat): (r: Option<(int, nat)>)
    requires from <= |s|
    ensures r.Some? ==> from < r.value.1 <= |s|
  {
    var p := Skip(s, from, IsSpace);
    var d := if p < |s| && (s[p] == '+' || s[p] == '-') then p + 1 else p;
    var e := Skip(s, d, IsDigit);
    if e == d then None
    else
      var v: int := DigitsValue(s[d..e]);
      var signed := if p < d && s[p] == '-' then -v else v;
      Some((if signed > LONG_MAX then LONG_MAX else if signed < -LONG_MAX - 1 then -LONG_MAX - 1 else signed, e))
  }

  /** The cast of a `long` to `int`. */
  function ToInt(v: int): int32 {
    var low := v % 0x1_0000_0000;
    if low >= 0x8000_0000 then low - 0x1_0000_0000 else low
  }

  lemma {:induction false} DigitsRoundTrip(n: nat)
    ensures Digits(n) != "" && DigitsValue(Digits(n)) == n
    ensures forall k :: 0 <= k < |Digits(n)| ==> IsDigit(Digits(n)[k])
  {
    var last := ['0' + (n % 10) as char];
    if n < 10 {
      assert Digits(n)[..0] == "";
    } else {
      DigitsRoundTrip(n / 10);
      assert Digits(n)[..|Digits(n)| - 1] == Digits(n / 10);
      assert last[0] as int - '0' as int == n % 10;
    }
  }

  /** Decimals are printed without leading zeros: any such digits print the number they stand for. */
  lemma {:induction false} DigitsAreTheNumber(s: string)
    requires s != "" && (forall k :: 0 <= k < |s| ==> IsDigit(s[k])) && (|s| > 1 ==> s[0] != '0')
    ensures Digits(DigitsValue(s)) == s
    ensures |s| > 1 || s[0] != '0' ==> DigitsValue(s) > 0
  {
    var init, c := s[..|s| - 1], s[|s| - 1];
    assert s == init + [c];
    if |s| == 1 {
      assert DigitsValue(init) == 0;
    } else {
      DigitsAreTheNumber(init);
    }
  }

  /** And every number prints as such digits. */
  lemma {:induction false} NoLeadingZero(n: nat)
    ensures |Digits(n)| > 1 ==> Digits(n)[0] != '0'
    ensures n > 0 ==> Digits(n)[0] != '0'
  {
    if n < 10 {
    } else {
      NoLeadingZero(n / 10);
      DigitsRoundTrip(n / 10);
    }
  }

  /** A printed int is read back by `strtol`, up to its last digit. */
  lemma StrToLReads(s: string, from: nat, n: int, e: nat)
    requires -LONG_MAX <= n <= LONG_MAX
    requires from <= e <= |s| && s[from..e] == Decimal(n)
    requires e < |s| ==> !IsDigit(s[e])
    ensures StrToL(s, from) == Some((n, e))
  {
    hide Skip, Digits, DigitsValue;
    var v := if n < 0 then -n else n;
    DigitsRoundTrip(v);
    var d := if n < 0 then from + 1 else from;
    assert s[d..e] == Digits(v);
    assert forall k :: d <= k < e ==> s[k] == Digits(v)[k - d];
    assert s[from] == Decimal(n)[0];
    assert IsDigit(s[d]);
    assert Skip(s, from, IsSpace) == from;
    assert Skip(s, d, IsDigit) == e;
  }

  /** `i` to `j` is a whole run of one kind of characters. */
  ghost predicate IsRun(s: string, i: nat, j: nat, kind: char -> bool) {
    i <= j <= |s| && (forall k :: i <= k < j ==> kind(s[k])) && (j < |s| ==> !kind(s[j]))
  }

  /**
   * What `strtol` reads, whatever is there: blanks, perhaps a sign, and digits. Without a digit it
   * reads no number; a number that is too long for a `long` is read as the nearest one.
   */
  lemma StrToLMeans(s: string, from: nat, p: nat, d: nat, e: nat)
    requires from <= p && IsRun(s, from, p, IsSpace) && IsRun(s, d, e, IsDigit)
    requires d == if p < |s| && s[p] in "+-" then p + 1 else p
    ensures e == d ==> StrToL(s, from) == None
    ensures e > d ==>
              var digits: int := DigitsValue(s[d..e]);
              var v := if s[p] == '-' then -digits else digits;
              && StrToL(s, from).Some? && StrToL(s, from).value.1 == e
              && (-0x8000_0000_0000_0000 <= v < 0x8000_0000_0000_0000 ==> StrToL(s, from).value.0 == v)
              && (v < -0x8000_0000_0000_0000 ==> StrToL(s, from).value.0 == -0x8000_0000_0000_0000)
              && (v >= 0x8000_0000_0000_0000 ==> StrToL(s, from).value.0 == 0x7fff_ffff_ffff_ffff)
  {
    hide Skip, DigitsValue;
    SkipEnds(s, from, p, IsSpace);
    SkipEnds(s, d, e, IsDigit);
  }

  /** The cast keeps an int, and otherwise what is equal modulo 2 to the 32. */
  lemma ToIntWraps(v: int)
    ensures (v - ToInt(v)) % 0x1_0000_0000 == 0
    ensures -0x8000_0000 <= v <= 0x7fff_ffff ==> ToInt(v) == v
  {
  }

  // ---- Records ----

  /** The record of an occurrence, without the newline it ends with. */
  function RecordLine(o: Occurrence): string {
    o.word + " " + Decimal(o.fileIndex) + " " + Decimal(o.lineNo)
  }

  function ParseRecord(s: string): Option<Occurrence> {
    var start := Skip(s, 0, IsSpace);
    if start == |s| then None
    else
      var end := Skip(s, start, IsInk);
      var p := Skip(s, end, IsSpace);
      if p == |s| then None
      else
        var file := StrToL(s, p);
        if file.None? then None
        else
          var q := Skip(s, file.value.1, IsSpace);
          if q == |s| then None
          else
            var line := StrToL(s, q);
            if line.None? then None
            else Some(Occurrence(s[start..end], ToInt(file.value.0), ToInt(line.value.0)))
  }

  predicate Plain(word: string) {
    word != "" && forall k :: 0 <= k < |word| ==> IsInk(word[k]) && word[k] != '\0'
  }

  /** A record is read back exactly if its word has no character that `isspace` accepts. */
  lemma ParseInvertsPrint(o: Occurrence)
    ensures ParseRecord(CString(RecordLine(o))) == Some(o) <==> Plain(o.word)
  {
    if Plain(o.word) {
      RecordHasNoNul(o);
      CStringOfPlain(RecordLine(o));
      PlainIsReadBack(o);
    } else {
      ParsedIsPlain(CString(RecordLine(o)));
    }
  }

  lemma SkipEnds(s: string, from: nat, p: nat, kind: char -> bool)
    requires from <= p <= |s| && (p < |s| ==> !kind(s[p]))
    requires forall k :: from <= k < p ==> kind(s[k])
    ensures Skip(s, from, kind) == p
  {
    hide Skip;
  }

  lemma PlainIsReadBack(o: Occurrence)
    requires Plain(o.word)
    ensures ParseRecord(RecordLine(o)) == Some(o)
  {
    hide ParseRecord, Decimal, Plain;
    var s, word, d, e := RecordLine(o), o.word, Decimal(o.fileIndex), Decimal(o.lineNo);
    Fields(s, word, d, e);
    FieldsAreReadBack(s, |word|, |word| + 1 + |d|, o.fileIndex, o.lineNo);
  }

  /** Where the three fields of a record lie. */
  lemma Fields(s: string, word: string, d: string, e: string)
    requires s == word + " " + d + " " + e
    ensures var a, b := |word|, |word| + 1 + |d|;
            && b < |s| && s[..a] == word && s[a] == ' ' && s[a + 1..b] == d && s[b] == ' ' && s[b + 1..|s|] == e
  {
  }

  lemma WordIsFound(s: string, a: nat)
    requires a + 1 < |s| && Plain(s[..a]) && s[a] == ' ' && IsInk(s[a + 1])
    ensures Skip(s, 0, IsSpace) == 0 && Skip(s, 0, IsInk) == a && Skip(s, a, IsSpace) == a + 1
  {
    hide Skip;
    assert forall k :: 0 <= k < a ==> s[k] == s[..a][k];
    SkipEnds(s, 0, 0, IsSpace);
    SkipEnds(s, 0, a, IsInk);
    SkipEnds(s, a, a + 1, IsSpace);
  }

  lemma NumberIsRead(s: string, p: nat, b: nat, n: int32)
    requires p <= b <= |s| && s[p..b] == Decimal(n) && (b < |s| ==> s[b] == ' ' && b + 1 < |s| && IsInk(s[b + 1]))
    ensures p < b && IsInk(s[p]) && StrToL(s, p) == Some((n as int, b))
    ensures b < |s| ==> Skip(s, b, IsSpace) == b + 1
  {
    hide Skip, Decimal, StrToL;
    DecimalStartsInked(n);
    assert s[p] == s[p..b][0];
    StrToLReads(s, p, n, b);
    if b < |s| {
      SkipEnds(s, b, b + 1, IsSpace);
    }
  }

  lemma FieldsAreReadBack(s: string, a: nat, b: nat, file: int32, line: int32)
    requires a < b < |s| && Plain(s[..a]) && s[a] == ' ' && s[b] == ' '
    requires s[a + 1..b] == Decimal(file) && s[b + 1..|s|] == Decimal(line)
    ensures ParseRecord(s) == Some(Occurrence(s[..a], file, line))
  {
    hide Skip, Decimal, StrToL, Plain, IsSpace;
    NumberIsRead(s, b + 1, |s|, line);
    NumberIsRead(s, a + 1, b, file);
    WordIsFound(s, a);
  }

  lemma DecimalStartsInked(n: int)
    ensures Decimal(n) != "" && '\n' !in Decimal(n) && '\0' !in Decimal(n)
    ensures forall k :: 0 <= k < |Decimal(n)| ==> IsInk(Decimal(n)[k])
  {
    DigitsRoundTrip(if n < 0 then -n else n);
  }

  lemma RecordHasNoNul(o: Occurrence)
    requires '\0' !in o.word
    ensures '\0' !in RecordLine(o)
  {
    hide Digits;
    DecimalStartsInked(o.fileIndex);
    DecimalStartsInked(o.lineNo);
  }

  lemma ParsedIsPlain(s: string)
    ensures '\0' !in s && ParseRecord(s).Some? ==> Plain(ParseRecord(s).value.word)
  {
    hide StrToL;
    if '\0' !in s && ParseRecord(s).Some? {
      var start := Skip(s, 0, IsSpace);
      var end := Skip(s, start, IsInk);
      assert forall k :: start <= k < end ==> s[k] in s;
    }
  }
}
