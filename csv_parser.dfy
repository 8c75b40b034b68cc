/**
 * CsvParser: the single-pass decoder of delimited text files (schedule files). A position index is
 * advanced through the text; the parser object keeps the current line number, the position within
 * the line, the index where the line begins, a success flag and the list of error messages.
 */
module CsvParser {
  import opened Wrappers

  datatype Token = FileEnd | Delimiter | LineEnd | Value

  /**
   * A decoded cell: a number (kept as the text the number parser accepted, the conversion to a
   * double is not modelled) or a string.
   */
  datatype JsonValue = Number(text: string) | Text(text: string)

  /** The decoded document: the header row and one list of values per column. */
  datatype Root = Root(header: seq<JsonValue>, values: seq<seq<JsonValue>>)

  /** What decode returns: the document, the null document of an empty file, or the exception of `columns.at`. */
  datatype DecodeResult = Decoded(root: Root) | Null | OutOfRange

  /** The column separators the schedule input offers: comma, tab, space (fixed) and semicolon. */
  predicate ValidDelimiter(d: char)
  {
    d == ',' || d == '\t' || d == ' ' || d == ';'
  }

  /** The characters eat_whitespace skips: spaces and tabs unless they are the delimiter, and carriage returns. */
  predicate Skippable(c: char, delim: char)
  {
    (delim != ' ' && c == ' ') || (delim != '\t' && c == '\t') || c == '\r'
  }

  /** Where eat_whitespace stops when started at `i`. */
  function WhitespaceEnd(csv: string, i: nat, delim: char): (j: nat)
    requires i <= |csv|
    ensures i <= j <= |csv|
    ensures j == |csv| || !Skippable(csv[j], delim)
    decreases |csv| - i
  {
    if i < |csv| && Skippable(csv[i], delim) then WhitespaceEnd(csv, i + 1, delim) else i
  }

  /** Everything eat_whitespace passes over is skippable, so in particular no line feed. */
  lemma {:induction false} WhitespaceSkipped(csv: string, i: nat, delim: char)
    requires i <= |csv|
    ensures forall k :: i <= k < WhitespaceEnd(csv, i, delim) ==> Skippable(csv[k], delim) && csv[k] != '\n'
    decreases |csv| - i
  {
    if i < |csv| && Skippable(csv[i], delim) {
      WhitespaceSkipped(csv, i + 1, delim);
    }
  }

  /** The token that starts at a position where no whitespace is left. */
  function TokenAt(csv: string, j: nat, delim: char): Token
    requires j <= |csv|
  {
    if j == |csv| then FileEnd
    else if csv[j] == delim then Delimiter
    else if csv[j] == '\n' then LineEnd
    else Value
  }

  /** The number of line feeds in csv[..n]. */
  function Newlines(csv: string, n: nat): nat
    requires n <= |csv|
  {
    if n == 0 then 0 else Newlines(csv, n - 1) + (if csv[n - 1] == '\n' then 1 else 0)
  }

  lemma {:induction false} NewlinesUnchanged(csv: string, a: nat, b: nat)
    requires a <= b <= |csv| && forall k :: a <= k < b ==> csv[k] != '\n'
    ensures Newlines(csv, b) == Newlines(csv, a)
    decreases b - a
  {
    if a < b {
      NewlinesUnchanged(csv, a, b - 1);
    }
  }

  /**
   * The counters describe the position `index` in `csv`: the line number is one more than the
   * line feeds before it, the line begins just after the last of them, and the index into the
   * line is the distance from that beginning.
   */
  predicate At(csv: string, index: nat, lineNum: nat, intoLine: nat, lineBegin: nat)
  {
    index <= |csv| && lineBegin <= index && intoLine == index - lineBegin
    && lineNum == 1 + Newlines(csv, index)
    && (lineBegin == 0 || csv[lineBegin - 1] == '\n')
    && Newlines(csv, lineBegin) == Newlines(csv, index)
  }

  lemma {:induction false} NewlinesMonotone(csv: string, a: nat, b: nat)
    requires a <= b <= |csv|
    ensures Newlines(csv, a) <= Newlines(csv, b)
    decreases b - a
  {
    if a < b {
      NewlinesMonotone(csv, a, b - 1);
    }
  }

  /** Moving forward within a line keeps the line number and beginning and moves the index into the line. */
  lemma {:induction false} AtForward(csv: string, a: nat, b: nat, lineNum: nat, intoLine: nat, lineBegin: nat)
    requires At(csv, a, lineNum, intoLine, lineBegin)
    requires a <= b <= |csv| && forall k :: a <= k < b ==> csv[k] != '\n'
    ensures At(csv, b, lineNum, intoLine + (b - a), lineBegin)
  {
    NewlinesUnchanged(csv, a, b);
  }

  /** Moving back within a line. */
  lemma {:induction false} AtBack(csv: string, a: nat, b: nat, lineNum: nat, intoLine: nat, lineBegin: nat)
    requires At(csv, a, lineNum, intoLine, lineBegin)
    requires lineBegin <= b <= a
    ensures At(csv, b, lineNum, intoLine - (a - b), lineBegin)
  {
    NewlinesMonotone(csv, lineBegin, b);
    NewlinesMonotone(csv, b, a);
  }

  /** Any position up to where a line-feed-free stretch ends is on the same line. */
  lemma {:induction false} AtWithin(csv: string, a: nat, c: nat, b: nat, lineNum: nat, intoLine: nat, lineBegin: nat)
    requires At(csv, a, lineNum, intoLine, lineBegin)
    requires a <= b <= c <= |csv| && forall k :: a <= k < c ==> csv[k] != '\n'
    ensures At(csv, b, lineNum, b - lineBegin, lineBegin)
  {
    NewlinesUnchanged(csv, a, b);
  }

  /** Passing a line feed starts the next line. */
  lemma {:induction false} AtNewline(csv: string, a: nat, lineNum: nat, intoLine: nat, lineBegin: nat)
    requires At(csv, a, lineNum, intoLine, lineBegin)
    requires a < |csv| && csv[a] == '\n'
    ensures At(csv, a + 1, lineNum + 1, 0, a + 1)
  {
  }

  /** The index of the first line feed at or after `i`, or the end of the text. */
  function LineEndFrom(csv: string, i: nat): (e: nat)
    requires i <= |csv|
    ensures i <= e <= |csv|
    ensures e == |csv| || csv[e] == '\n'
    decreases |csv| - i
  {
    if i == |csv| || csv[i] == '\n' then i else LineEndFrom(csv, i + 1)
  }

  /** No line feed comes before the end of the line. */
  lemma {:induction false} LineEndFirst(csv: string, i: nat)
    requires i <= |csv|
    ensures forall k :: i <= k < LineEndFrom(csv, i) ==> csv[k] != '\n'
    decreases |csv| - i
  {
    if i < |csv| && csv[i] != '\n' {
      LineEndFirst(csv, i + 1);
    }
  }

  /** The number of delimiter characters in csv[a..b]. */
  function DelimCount(csv: string, a: nat, b: nat, delim: char): nat
    requires a <= b <= |csv|
    decreases b - a
  {
    if b == a then 0 else DelimCount(csv, a, b - 1, delim) + (if csv[b - 1] == delim then 1 else 0)
  }

  /** The last character of csv[a..b] that is not skipped as whitespace, if any. */
  function LastSignificant(csv: string, a: nat, b: nat, delim: char): Option<char>
    requires a <= b <= |csv|
    decreases b - a
  {
    if b == a then None
    else if Skippable(csv[b - 1], delim) then LastSignificant(csv, a, b - 1, delim)
    else Some(csv[b - 1])
  }

  /** Skipped whitespace changes neither the delimiter count nor the last significant character. */
  lemma {:induction false} SkipKeepsLine(csv: string, a: nat, s: nat, j: nat, delim: char)
    requires ValidDelimiter(delim)
    requires a <= s <= j <= |csv| && forall k :: s <= k < j ==> Skippable(csv[k], delim)
    ensures DelimCount(csv, a, j, delim) == DelimCount(csv, a, s, delim)
    ensures LastSignificant(csv, a, j, delim) == LastSignificant(csv, a, s, delim)
    decreases j - s
  {
    if s < j {
      SkipKeepsLine(csv, a, s, j - 1, delim);
    }
  }

  /**
   * The column count find_number_columns computes from the first data line, as written: the
   * delimiters on the line, plus one when the line ends with a line feed and its last token is not
   * a delimiter. A line that ends the file gets no extra column.
   */
  function ColumnCountAsWritten(csv: string, i: nat, delim: char): nat
    requires i <= |csv|
  {
    var e := LineEndFrom(csv, i);
    var d := DelimCount(csv, i, e, delim);
    if e == |csv| then d
    else if LastSignificant(csv, i, e, delim) == Some(delim) then d
    else d + 1
  }

  /**
   * The intended column count: the delimiters on the line, plus one unless the line is empty or
   * ends with a delimiter, whether the line ends with a line feed or with the file. (A line feed
   * that follows no token at all still counts one column, as the code reads an unset previous
   * token as "not a delimiter".)
   */
  function ColumnCount(csv: string, i: nat, delim: char): nat
    requires i <= |csv|
  {
    var e := LineEndFrom(csv, i);
    var d := DelimCount(csv, i, e, delim);
    var last := LastSignificant(csv, i, e, delim);
    if e == |csv| then (if last.Some? && last.value != delim then d + 1 else d)
    else if last == Some(delim) then d
    else d + 1
  }

  /**
   * As written, a file whose only data line "1,2" has no final line feed is counted as one
   * column, although the line holds two values.
   */
  lemma SingleLineWithoutLineFeedLosesColumn()
    ensures ColumnCountAsWritten("1,2", 0, ',') == 1
    ensures ColumnCount("1,2", 0, ',') == 2
  {
    var s := "1,2";
    assert LineEndFrom(s, 2) == 3 && LineEndFrom(s, 1) == 3 && LineEndFrom(s, 0) == 3;
    assert DelimCount(s, 0, 1, ',') == 0;
    assert DelimCount(s, 0, 3, ',') == 1;
    assert LastSignificant(s, 0, 3, ',') == Some('2');
  }

  /** The two counts differ only on a line that ends the file. */
  lemma {:induction false} CountsAgreeBeforeLastLine(csv: string, i: nat, delim: char)
    requires i <= |csv| && LineEndFrom(csv, i) < |csv|
    ensures ColumnCount(csv, i, delim) == ColumnCountAsWritten(csv, i, delim)
  {
  }

  /** The end of a value: the first delimiter, line feed or carriage return at or after `i`. */
  function ValueEnd(csv: string, i: nat, delim: char): (e: nat)
    requires i <= |csv|
    ensures i <= e <= |csv|
    ensures e == |csv| || csv[e] == delim || csv[e] == '\n' || csv[e] == '\r'
    decreases |csv| - i
  {
    if i == |csv| || csv[i] == delim || csv[i] == '\n' || csv[i] == '\r' then i else ValueEnd(csv, i + 1, delim)
  }

  /** A value holds no delimiter, line feed or carriage return. */
  lemma {:induction false} ValueWithinLine(csv: string, i: nat, delim: char)
    requires i <= |csv|
    ensures forall k :: i <= k < ValueEnd(csv, i, delim) ==> csv[k] != delim && csv[k] != '\n' && csv[k] != '\r'
    decreases |csv| - i
  {
    if !(i == |csv| || csv[i] == delim || csv[i] == '\n' || csv[i] == '\r') {
      ValueWithinLine(csv, i + 1, delim);
    }
  }

  predicate IsBlank(c: char) { c == ' ' || c == '\t' }

  /** rtrim: the text without its trailing spaces and tabs. */
  function RTrim(s: string): (r: string)
    ensures |r| <= |s| && r == s[..|r|]
    ensures forall k :: |r| <= k < |s| ==> IsBlank(s[k])
    ensures r == [] || !IsBlank(r[|r| - 1])
    ensures (forall k :: 0 <= k < |s| ==> IsBlank(s[k])) ==> r == []
  {
    if s != [] && IsBlank(s[|s| - 1]) then RTrim(s[..|s| - 1]) else s
  }

  predicate AllSpaces(s: string)
  {
    forall k :: 0 <= k < |s| ==> s[k] == ' '
  }

  /**
   * parse_value on the text of one value: an optional leading '+' is skipped, then `numberLength`
   * says how many characters the number parser accepts (0 when it rejects the text or the number
   * is out of range). A number that fills the text, or is followed only by spaces when the
   * delimiter is not a space, is a number; the position is moved back to just after it. Any other
   * text is the string with its trailing blanks removed. The second component is how many
   * characters of the text are consumed.
   */
  function ParsedValue(text: string, delim: char, numberLength: string -> nat): (r: (JsonValue, nat))
    ensures r.1 <= |text| && (|text| > 0 ==> r.1 >= 1)
  {
    var plus := if |text| > 0 && text[0] == '+' then 1 else 0;
    var body := text[plus..];
    var k := if numberLength(body) <= |body| then numberLength(body) else |body|;
    if k == 0 then (Text(RTrim(text)), |text|)
    else if plus + k == |text| then (Number(body[..k]), |text|)
    else if delim != ' ' && AllSpaces(text[plus + k..]) then (Number(body[..k]), plus + k)
    else (Text(RTrim(text)), |text|)
  }

  /**
   * What a decoded value looks like: a number is never empty and only spaces follow it, a string
   * is the whole text without its trailing blanks.
   */
  lemma {:induction false} ParsedValueShape(text: string, delim: char, numberLength: string -> nat)
    ensures var r := ParsedValue(text, delim, numberLength);
            (r.0.Number? ==> AllSpaces(text[r.1..]) && |r.0.text| >= 1)
            && (r.0.Text? ==> r.1 == |text| && r.0.text == RTrim(text))
  {
  }

  /** A number followed by a tab is kept as the trimmed string, not as a number. */
  lemma TrailingTabKeepsText(numberLength: string -> nat)
    requires numberLength("12\t") == 2
    ensures ParsedValue("12\t", ',', numberLength).0 == Text("12")
  {
    assert "12\t"[0..] == "12\t";
    assert "12\t"[2..] == "\t";
    assert "\t"[0] == '\t';
    assert RTrim("12\t") == RTrim("12") == "12";
  }

  function DigitChar(d: nat): char
    requires d < 10
  {
    "0123456789"[d]
  }

  /** The decimal text of a natural number. */
  function NatToString(n: nat): (s: string)
    ensures |s| >= 1 && forall k :: 0 <= k < |s| ==> '0' <= s[k] <= '9'
  {
    if n < 10 then [DigitChar(n)] else NatToString(n / 10) + [DigitChar(n % 10)]
  }

  /** The message parse_line records for a row with the wrong number of values. */
  function MismatchMessage(lineNum: nat, expected: nat, got: nat): string
  {
    "CsvParser - Line " + NatToString(lineNum) + " - Expected " + NatToString(expected)
      + " columns, got " + NatToString(got) + ". Error in following line."
  }

  /** The message for line 3 of a three-column file that holds two values. */
  lemma MismatchMessageText()
    ensures MismatchMessage(3, 3, 2)
         == "CsvParser - Line " + "3" + " - Expected " + "3" + " columns, got " + "2" + ". Error in following line."
  {
    assert DigitChar(3) == '3' && DigitChar(2) == '2';
  }

  /** The first carriage return or line feed at or after `b`, if any. */
  function FirstLineBreak(csv: string, b: nat): (f: Option<nat>)
    requires b <= |csv|
    ensures f.Some? ==> b <= f.value < |csv| && (csv[f.value] == '\r' || csv[f.value] == '\n')
    ensures forall k :: b <= k < |csv| && (f.None? || k < f.value) ==> csv[k] != '\r' && csv[k] != '\n'
    decreases |csv| - b
  {
    if b == |csv| then None
    else if csv[b] == '\r' || csv[b] == '\n' then Some(b)
    else FirstLineBreak(csv, b + 1)
  }

  /** The offending line quoted after the mismatch message: up to the first line break, or empty without one. */
  function LineText(csv: string, b: nat): (line: string)
    requires b <= |csv|
    ensures forall k :: 0 <= k < |line| ==> line[k] != '\n' && line[k] != '\r'
  {
    var f := FirstLineBreak(csv, b);
    if f.Some? then csv[b..f.value] else ""
  }

  /** The number of values held by all columns. */
  function TotalValues(cols: seq<seq<JsonValue>>): nat
  {
    if cols == [] then 0 else TotalValues(cols[..|cols| - 1]) + |cols[|cols| - 1]|
  }

  lemma {:induction false} TotalValuesAppend(cols: seq<seq<JsonValue>>, c: nat, v: JsonValue)
    requires c < |cols|
    ensures TotalValues(cols[c := cols[c] + [v]]) == TotalValues(cols) + 1
    decreases |cols|
  {
    var n := cols[c := cols[c] + [v]];
    assert n[..|n| - 1] == (if c < |cols| - 1 then cols[..|cols| - 1][c := cols[c] + [v]] else cols[..|cols| - 1]);
    if c < |cols| - 1 {
      TotalValuesAppend(cols[..|cols| - 1], c, v);
    }
  }

  /** Every column of `cols` starts with the corresponding column of `before`. */
  predicate Extends(before: seq<seq<JsonValue>>, cols: seq<seq<JsonValue>>)
  {
    |cols| == |before| && forall c :: 0 <= c < |cols| ==> |before[c]| <= |cols[c]| && cols[c][..|before[c]|] == before[c]
  }

  /** The position just after the line that contains `i`: past its line feed, or the end of the text. */
  function NextLine(csv: string, i: nat): (n: nat)
    requires i <= |csv|
    ensures i <= n <= |csv| && (i < |csv| ==> i < n)
  {
    var e := LineEndFrom(csv, i);
    if e == |csv| then e else e + 1
  }

  /** Positions on the same line see the same end of line. */
  lemma {:induction false} LineEndSame(csv: string, a: nat, b: nat)
    requires a <= b <= |csv| && forall k :: a <= k < b ==> csv[k] != '\n'
    ensures LineEndFrom(csv, a) == LineEndFrom(csv, b)
    decreases b - a
  {
    if a < b {
      LineEndSame(csv, a + 1, b);
    }
  }

  /**
   * The position after `n` more line feeds (or the end of the text): where skip_rows stops when
   * `n` rows are to be skipped.
   */
  function NthLineStart(csv: string, i: nat, n: nat): (p: nat)
    requires i <= |csv|
    ensures i <= p <= |csv|
    decreases n
  {
    if n == 0 then i else NthLineStart(csv, NextLine(csv, i), n - 1)
  }

  /** Two positions on the same line reach the same position after `m` more line feeds. */
  lemma {:induction false} NthLineSameLine(csv: string, a: nat, b: nat, m: nat)
    requires a <= |csv| && b <= |csv| && m >= 1 && NextLine(csv, a) == NextLine(csv, b)
    ensures NthLineStart(csv, a, m) == NthLineStart(csv, b, m)
  {
  }

  /** Passing one line feed leaves one fewer to pass. */
  lemma {:induction false} NthLinePassed(csv: string, a: nat, m: nat)
    requires a <= |csv| && m >= 1
    ensures NthLineStart(csv, a, m) == NthLineStart(csv, NextLine(csv, a), m - 1)
  {
  }

  /** At the end of the text there is no line left to skip. */
  lemma {:induction false} NthLineAtEnd(csv: string, n: nat)
    ensures NthLineStart(csv, |csv|, n) == |csv|
    decreases n
  {
    if n > 0 {
      NthLineAtEnd(csv, n - 1);
    }
  }

  /** One item of a line: a delimiter or a decoded value. */
  datatype Item = Sep | Val(v: JsonValue)

  /**
   * The items a line yields from position `i` on, as parse_header and parse_line read them: after
   * the whitespace, a delimiter is a separator, a value is decoded by `ParsedValue`, and a line feed
   * or the end of the text ends the line.
   */
  function LineItems(csv: string, i: nat, delim: char, numberLength: string -> nat): seq<Item>
    requires i <= |csv| && ValidDelimiter(delim)
    decreases |csv| - i
  {
    var j := WhitespaceEnd(csv, i, delim);
    var t := TokenAt(csv, j, delim);
    if t == FileEnd || t == LineEnd then []
    else if t == Delimiter then [Sep] + LineItems(csv, j + 1, delim, numberLength)
    else
      var r := ValueAt(csv, j, delim, numberLength);
      [Val(r.0)] + LineItems(csv, r.1, delim, numberLength)
  }

  /** The value that starts at `j` and the position after what it consumes. */
  function ValueAt(csv: string, j: nat, delim: char, numberLength: string -> nat): (r: (JsonValue, nat))
    requires j <= |csv| && ValidDelimiter(delim) && TokenAt(csv, j, delim) == Value
    requires j == |csv| || !Skippable(csv[j], delim)
    ensures j < r.1 <= ValueEnd(csv, j, delim)
  {
    var e := ValueEnd(csv, j, delim);
    var p := ParsedValue(csv[j..e], delim, numberLength);
    (p.0, j + p.1)
  }

  /** A line feed or the end of the text after the whitespace ends the line's items and the line. */
  lemma {:induction false} ItemsStepEnd(csv: string, i: nat, delim: char, numberLength: string -> nat)
    requires i <= |csv| && ValidDelimiter(delim)
    requires var t := TokenAt(csv, WhitespaceEnd(csv, i, delim), delim); t == FileEnd || t == LineEnd
    ensures LineItems(csv, i, delim, numberLength) == []
    ensures var j := WhitespaceEnd(csv, i, delim); NextLine(csv, i) == if j == |csv| then j else j + 1
  {
    WhitespaceSkipped(csv, i, delim);
    LineEndSame(csv, i, WhitespaceEnd(csv, i, delim));
  }

  /** A delimiter after the whitespace is a separator, and the line goes on. */
  lemma {:induction false} ItemsStepDelimiter(csv: string, i: nat, delim: char, numberLength: string -> nat)
    requires i <= |csv| && ValidDelimiter(delim)
    requires TokenAt(csv, WhitespaceEnd(csv, i, delim), delim) == Delimiter
    ensures var j := WhitespaceEnd(csv, i, delim);
            LineItems(csv, i, delim, numberLength) == [Sep] + LineItems(csv, j + 1, delim, numberLength)
            && NextLine(csv, j + 1) == NextLine(csv, i)
  {
    var j := WhitespaceEnd(csv, i, delim);
    WhitespaceSkipped(csv, i, delim);
    LineEndSame(csv, i, j);
    assert csv[j] == delim != '\n';
    LineEndSame(csv, j, j + 1);
  }

  /** ValueAt is the decoded text between `j` and the end of the value. */
  lemma {:induction false} ValueAtDecodes(csv: string, j: nat, delim: char, numberLength: string -> nat, v: JsonValue, consumed: nat)
    requires j <= |csv| && ValidDelimiter(delim) && TokenAt(csv, j, delim) == Value && !Skippable(csv[j], delim)
    requires (v, consumed) == ParsedValue(csv[j..ValueEnd(csv, j, delim)], delim, numberLength)
    ensures ValueAt(csv, j, delim, numberLength) == (v, j + consumed)
  {
  }

  /** A value after the whitespace is decoded, and the line goes on after what it consumed. */
  lemma {:induction false} ItemsStepValue(csv: string, i: nat, delim: char, numberLength: string -> nat)
    requires i <= |csv| && ValidDelimiter(delim)
    requires TokenAt(csv, WhitespaceEnd(csv, i, delim), delim) == Value
    ensures var r := ValueAt(csv, WhitespaceEnd(csv, i, delim), delim, numberLength);
            LineItems(csv, i, delim, numberLength) == [Val(r.0)] + LineItems(csv, r.1, delim, numberLength)
            && NextLine(csv, r.1) == NextLine(csv, i)
  {
    var j := WhitespaceEnd(csv, i, delim);
    var r := ValueAt(csv, j, delim, numberLength);
    assert r.1 <= ValueEnd(csv, j, delim);
    ValueWithinLine(csv, j, delim);
    LineEndSame(csv, j, r.1);
    WhitespaceSkipped(csv, i, delim);
    LineEndSame(csv, i, j);
  }

  /** The values among the items, in order. */
  function ValuesOf(items: seq<Item>): seq<JsonValue>
  {
    if items == [] then []
    else if items[0].Sep? then ValuesOf(items[1..])
    else [items[0].v] + ValuesOf(items[1..])
  }

  lemma SeqAssoc<T>(a: seq<T>, b: seq<T>, c: seq<T>)
    ensures a + (b + c) == (a + b) + c
  {
  }

  lemma {:induction false} ValuesOfCons(item: Item, items: seq<Item>)
    ensures ValuesOf([item] + items) == (if item.Sep? then [] else [item.v]) + ValuesOf(items)
  {
    assert ([item] + items)[1..] == items;
  }

  /**
   * parse_line's distribution of a line's items over the columns: each value is appended to the
   * column numbered by the separators before it; a value beyond the last column is the
   * out-of-range failure of `columns.at`.
   */
  function Place(cols: seq<seq<JsonValue>>, items: seq<Item>, col: nat): Option<seq<seq<JsonValue>>>
    decreases |items|
  {
    if items == [] then Some(cols)
    else if items[0].Sep? then Place(cols, items[1..], col + 1)
    else if col < |cols| then Place(cols[col := cols[col] + [items[0].v]], items[1..], col)
    else None
  }

  /**
   * A placed line keeps the columns, extends each of them, and adds exactly as many values as the
   * line holds.
   */
  lemma {:induction false} PlaceAddsValues(cols: seq<seq<JsonValue>>, items: seq<Item>, col: nat)
    requires Place(cols, items, col).Some?
    ensures var out := Place(cols, items, col).value;
            Extends(cols, out) && TotalValues(out) == TotalValues(cols) + |ValuesOf(items)|
    decreases |items|
  {
    if items == [] {
    } else if items[0].Sep? {
      PlaceAddsValues(cols, items[1..], col + 1);
    } else {
      var next := cols[col := cols[col] + [items[0].v]];
      PlaceAddsValues(next, items[1..], col);
      TotalValuesAppend(cols, col, items[0].v);
      var out := Place(next, items[1..], col).value;
      forall c | 0 <= c < |out| ensures |cols[c]| <= |out[c]| && out[c][..|cols[c]|] == cols[c] {
        assert |next[c]| <= |out[c]| && out[c][..|next[c]|] == next[c];
        assert next[c][..|cols[c]|] == cols[c];
      }
    }
  }

  /** A value placed at a column beyond the last is an out-of-range failure. */
  lemma ValueBeyondColumnsFails(v: JsonValue)
    ensures Place([[]], [Sep, Val(v)], 0) == None
  {
    assert [Sep, Val(v)][1..] == [Val(v)];
  }

  /** The two errors parse_line records for a row with the wrong number of values: the message, then the line itself. */
  function RaggedRowErrors(lineNum: nat, expected: nat, got: nat, line: string): seq<(string, bool)>
  {
    [(MismatchMessage(lineNum, expected, got), false), (line, true)]
  }

  /** Where the line that contains position `i` begins: just after the last line feed before `i`. */
  function LineStartOf(csv: string, i: nat): (b: nat)
    requires i <= |csv|
    ensures b <= i
  {
    if i == 0 || csv[i - 1] == '\n' then i else LineStartOf(csv, i - 1)
  }

  /** The line beginning the parser keeps is the beginning of the current line. */
  lemma {:induction false} AtLineStart(csv: string, i: nat, lineNum: nat, intoLine: nat, lineBegin: nat)
    requires At(csv, i, lineNum, intoLine, lineBegin)
    ensures lineBegin == LineStartOf(csv, i)
    decreases i - lineBegin
  {
    if i > lineBegin {
      NewlinesMonotone(csv, lineBegin, i - 1);
      assert csv[i - 1] != '\n';
      AtLineStart(csv, i - 1, lineNum, intoLine - 1, lineBegin);
    }
  }

  /**
   * parse_csv's loop over the data lines from `i` on: each line is placed into the columns; a line
   * with a value beyond the last column fails (None); a line whose value count differs from the
   * column count records its two errors and ends the parse; the end of the text ends it cleanly.
   */
  function ParseLines(csv: string, i: nat, cols: seq<seq<JsonValue>>, delim: char, numberLength: string -> nat)
    : (r: (Option<seq<seq<JsonValue>>>, seq<(string, bool)>))
    requires i <= |csv| && ValidDelimiter(delim)
    decreases |csv| - i
  {
    if i == |csv| then (Some(cols), [])
    else
      var items := LineItems(csv, i, delim, numberLength);
      var placed := Place(cols, items, 0);
      if placed.None? then (None, [])
      else if |ValuesOf(items)| != |cols| then
        (placed, RaggedRowErrors(1 + Newlines(csv, i), |cols|, |ValuesOf(items)|, LineText(csv, LineStartOf(csv, i))))
      else ParseLines(csv, NextLine(csv, i), placed.value, delim, numberLength)
  }

  /** Whether the text starts with the UTF-8 byte order mark EF BB BF (each byte held as one character). */
  predicate HasByteOrderMark(csv: string)
  {
    |csv| > 3 && csv[0] == '\U{EF}' && csv[1] == '\U{BB}' && csv[2] == '\U{BF}'
  }

  /**
   * What decode yields for a text: the result, the success flag and the errors it appends. The
   * byte order mark is passed over; more than one row to skip skips that many lines; exactly one
   * makes the first line the header; the first data line fixes the column count.
   */
  function DecodeSpec(csv: string, delim: char, rowsToSkip: int, numberLength: string -> nat)
    : (r: (DecodeResult, bool, seq<(string, bool)>))
    requires ValidDelimiter(delim)
  {
    if csv == [] then (Null, false, [("CSV File is empty", false)])
    else
      var start := if HasByteOrderMark(csv) then 3 else 0;
      var afterSkip := if rowsToSkip > 1 then NthLineStart(csv, start, rowsToSkip) else start;
      if afterSkip == |csv| then (Decoded(Root([], [])), true, [])
      else
        var header := if rowsToSkip == 1 then ValuesOf(LineItems(csv, afterSkip, delim, numberLength)) else [];
        var dataStart := if rowsToSkip == 1 then NextLine(csv, afterSkip) else afterSkip;
        DataOutcome(csv, dataStart, header, delim, numberLength)
  }

  /** The columns parse_csv creates: `n` empty ones. */
  function EmptyColumns(n: nat): (cols: seq<seq<JsonValue>>)
    ensures |cols| == n && forall k :: 0 <= k < n ==> cols[k] == []
  {
    if n == 0 then [] else EmptyColumns(n - 1) + [[]]
  }

  /**
   * The outcome once the header is read: the column count is taken from the line at `dataStart`
   * and the data lines are parsed into that many empty columns.
   */
  function DataOutcome(csv: string, dataStart: nat, header: seq<JsonValue>, delim: char, numberLength: string -> nat)
    : (r: (DecodeResult, bool, seq<(string, bool)>))
    requires dataStart <= |csv| && ValidDelimiter(delim)
  {
    var lines := ParseLines(csv, dataStart, EmptyColumns(ColumnCount(csv, dataStart, delim)), delim, numberLength);
    if lines.0.None? then (OutOfRange, true, [])
    else (Decoded(Root(header, lines.0.value)), lines.1 == [], lines.1)
  }

  /**
   * The errors of the data lines are either none or exactly the two of one ragged row: the message
   * (not continued) and the line (continued).
   */
  lemma {:induction false} ParseLinesErrors(csv: string, i: nat, cols: seq<seq<JsonValue>>, delim: char, numberLength: string -> nat)
    requires i <= |csv| && ValidDelimiter(delim)
    ensures ParseLines(csv, i, cols, delim, numberLength).0.None? ==> ParseLines(csv, i, cols, delim, numberLength).1 == []
    ensures var errs := ParseLines(csv, i, cols, delim, numberLength).1;
            errs == [] || (|errs| == 2 && !errs[0].1 && errs[1].1
                           && forall k :: 0 <= k < |errs[1].0| ==> errs[1].0[k] != '\n' && errs[1].0[k] != '\r')
    decreases |csv| - i
  {
    if i < |csv| {
      var items := LineItems(csv, i, delim, numberLength);
      var placed := Place(cols, items, 0);
      if placed.Some? && |ValuesOf(items)| == |cols| {
        ParseLinesErrors(csv, NextLine(csv, i), placed.value, delim, numberLength);
      }
    }
  }

  lemma ExtendsTrans(a: seq<seq<JsonValue>>, b: seq<seq<JsonValue>>, c: seq<seq<JsonValue>>)
    requires Extends(a, b) && Extends(b, c)
    ensures Extends(a, c)
  {
    forall k | 0 <= k < |c| ensures |a[k]| <= |c[k]| && c[k][..|a[k]|] == a[k] {
      assert c[k][..|a[k]|] == c[k][..|b[k]|][..|a[k]|];
    }
  }

  /**
   * Parsing the data lines only appends to the columns: the column count is kept and every
   * column starts with what it held before.
   */
  lemma {:induction false} ParseLinesExtends(csv: string, i: nat, cols: seq<seq<JsonValue>>, delim: char, numberLength: string -> nat)
    requires i <= |csv| && ValidDelimiter(delim)
    ensures var out := ParseLines(csv, i, cols, delim, numberLength).0;
            out.Some? ==> Extends(cols, out.value)
    decreases |csv| - i
  {
    if i < |csv| {
      var items := LineItems(csv, i, delim, numberLength);
      var placed := Place(cols, items, 0);
      if placed.Some? {
        PlaceAddsValues(cols, items, 0);
        if |ValuesOf(items)| == |cols| {
          ParseLinesExtends(csv, NextLine(csv, i), placed.value, delim, numberLength);
          var out := ParseLines(csv, NextLine(csv, i), placed.value, delim, numberLength).0;
          if out.Some? {
            ExtendsTrans(cols, placed.value, out.value);
          }
        }
      }
    } else {
      assert Extends(cols, cols) by {
        forall k | 0 <= k < |cols| ensures cols[k][..|cols[k]|] == cols[k] {
        }
      }
    }
  }

  /** A header is read only when exactly one row is to be skipped. */
  lemma HeaderOnlyWithOneRowSkipped(csv: string, delim: char, rowsToSkip: int, numberLength: string -> nat)
    requires ValidDelimiter(delim) && rowsToSkip != 1
    ensures var r := DecodeSpec(csv, delim, rowsToSkip, numberLength).0;
            r.Decoded? ==> r.root.header == []
  {
  }

  lemma {:induction false} TailOfCons<T>(x: T, t: seq<T>)
    ensures ([x] + t)[0] == x && ([x] + t)[1..] == t
  {
  }

  class CsvParser {
    /** The number parser (fast_float): how many leading characters of a text it accepts as a number, 0 if none. */
    const numberLength: string -> nat
    var success: bool
    var curLineNum: nat
    var indexIntoCurLine: nat
    var beginningOfLineIndex: nat
    var delimiter: char
    var rowsToSkip: int
    var csvSize: nat
    /** Error messages, each flagged whether it continues the previous one. */
    var errors: seq<(string, bool)>

    /**
     * The counters describe the position `index` in `csv`: the line number is one more than the
     * line feeds before it, the line begins just after the last of them, and the index into the
     * line is the distance from that beginning.
     */
    ghost predicate Tracks(csv: string, index: nat)
      reads this
    {
      csvSize == |csv| && ValidDelimiter(delimiter) && At(csv, index, curLineNum, indexIntoCurLine, beginningOfLineIndex)
    }

    constructor (numberLength: string -> nat)
      ensures this.numberLength == numberLength && errors == []
    {
      this.numberLength := numberLength;
      success := true;
      curLineNum, indexIntoCurLine, beginningOfLineIndex := 1, 0, 0;
      delimiter, rowsToSkip, csvSize := ',', 0, 0;
      errors := [];
    }

    /** eat_whitespace: advance past skippable characters, keeping the index into the line in step. */
    method EatWhitespace(csv: string, index: nat) returns (i: nat)
      requires Tracks(csv, index)
      modifies this`indexIntoCurLine
      ensures i == WhitespaceEnd(csv, index, delimiter) && Tracks(csv, i)
    {
      i := index;
      while i < csvSize
        invariant index <= i <= |csv| && Tracks(csv, i)
        invariant WhitespaceEnd(csv, i, delimiter) == WhitespaceEnd(csv, index, delimiter)
        decreases |csv| - i
      {
        if (delimiter != ' ' && csv[i] == ' ') || (delimiter != '\t' && csv[i] == '\t') || csv[i] == '\r' {
          AtForward(csv, i, i + 1, curLineNum, indexIntoCurLine, beginningOfLineIndex);
          i, indexIntoCurLine := i + 1, indexIntoCurLine + 1;
        } else {
          return;
        }
      }
    }

    /**
     * next_token: after the whitespace, the end of the text is FILE_END (nothing consumed), the
     * delimiter is DELIMITER, a line feed is LINE_END (the line number goes up and a new line
     * begins) and any other character is VALUE; each of the last three consumes one character.
     */
    method NextToken(csv: string, index: nat) returns (token: Token, i: nat)
      requires Tracks(csv, index)
      modifies this`indexIntoCurLine, this`curLineNum, this`beginningOfLineIndex
      ensures var j := WhitespaceEnd(csv, index, delimiter);
              token == TokenAt(csv, j, delimiter) && i == (if token == FileEnd then j else j + 1)
      ensures Tracks(csv, i)
      ensures token == LineEnd ==> curLineNum == old(curLineNum) + 1 && beginningOfLineIndex == i && indexIntoCurLine == 0
    {
      i := EatWhitespace(csv, index);
      if i == csvSize {
        return FileEnd, i;
      }
      var c := csv[i];
      if c == delimiter {
        AtForward(csv, i, i + 1, curLineNum, indexIntoCurLine, beginningOfLineIndex);
        token, i, indexIntoCurLine := Delimiter, i + 1, indexIntoCurLine + 1;
      } else if c == '\n' {
        AtNewline(csv, i, curLineNum, indexIntoCurLine, beginningOfLineIndex);
        i, curLineNum := i + 1, curLineNum + 1;
        beginningOfLineIndex := i;
        indexIntoCurLine := 0;
        token := LineEnd;
      } else {
        AtForward(csv, i, i + 1, curLineNum, indexIntoCurLine, beginningOfLineIndex);
        token, i, indexIntoCurLine := Value, i + 1, indexIntoCurLine + 1;
      }
    }

    /** look_ahead: the next token, with every counter put back, so nothing is consumed. */
    method LookAhead(csv: string, index: nat) returns (token: Token)
      requires Tracks(csv, index)
      modifies this`indexIntoCurLine, this`curLineNum, this`beginningOfLineIndex
      ensures token == TokenAt(csv, WhitespaceEnd(csv, index, delimiter), delimiter)
      ensures curLineNum == old(curLineNum) && indexIntoCurLine == old(indexIntoCurLine)
      ensures beginningOfLineIndex == old(beginningOfLineIndex)
    {
      var saveLineNum, saveLineIndex, saveBeginning := curLineNum, indexIntoCurLine, beginningOfLineIndex;
      var saveIndex;
      token, saveIndex := NextToken(csv, index);
      curLineNum, indexIntoCurLine, beginningOfLineIndex := saveLineNum, saveLineIndex, saveBeginning;
    }

    /**
     * find_number_columns (corrected): counts the columns of the line at `index` by scanning a
     * copy of the index and putting the counters back.
     */
    method FindNumberColumns(csv: string, index: nat) returns (numColumns: nat)
      requires Tracks(csv, index)
      modifies this`indexIntoCurLine, this`curLineNum, this`beginningOfLineIndex
      ensures numColumns == ColumnCount(csv, index, delimiter)
      ensures curLineNum == old(curLineNum) && indexIntoCurLine == old(indexIntoCurLine)
      ensures beginningOfLineIndex == old(beginningOfLineIndex)
    {
      var saveIndex := index;
      var saveLineNum, saveLineIndex, saveBeginning := curLineNum, indexIntoCurLine, beginningOfLineIndex;
      var prevToken: Option<Token> := None;
      numColumns := 0;
      ghost var e := LineEndFrom(csv, index);
      LineEndFirst(csv, index);
      while true
        invariant Tracks(csv, saveIndex) && index <= saveIndex <= e
        invariant numColumns == DelimCount(csv, index, saveIndex, delimiter)
        invariant prevToken == None || prevToken == Some(Delimiter) || prevToken == Some(Value)
        invariant prevToken == None <==> LastSignificant(csv, index, saveIndex, delimiter) == None
        invariant prevToken == Some(Delimiter) <==> LastSignificant(csv, index, saveIndex, delimiter) == Some(delimiter)
        decreases |csv| - saveIndex
      {
        ghost var s := saveIndex;
        var token;
        token, saveIndex := NextToken(csv, saveIndex);
        WhitespaceSkipped(csv, s, delimiter);
        SkipKeepsLine(csv, index, s, WhitespaceEnd(csv, s, delimiter), delimiter);
        if token == FileEnd {
          if prevToken == Some(Value) {
            numColumns := numColumns + 1;
          }
          break;
        } else if token == Delimiter {
          numColumns := numColumns + 1;
        } else if token == LineEnd {
          if prevToken != Some(Delimiter) {
            numColumns := numColumns + 1;
          }
          break;
        }
        prevToken := Some(token);
      }
      curLineNum, indexIntoCurLine, beginningOfLineIndex := saveLineNum, saveLineIndex, saveBeginning;
    }
  
    /**
     * skip_rows: consume tokens until `rowsToSkip` line ends have been passed or the text ends.
     * With no positive count to reach, every row is skipped.
     */
    method SkipRows(csv: string, index: nat) returns (i: nat)
      requires Tracks(csv, index)
      modifies this`indexIntoCurLine, this`curLineNum, this`beginningOfLineIndex
      ensures Tracks(csv, i)
      ensures i == if rowsToSkip >= 1 then NthLineStart(csv, index, rowsToSkip) else |csv|
    {
      var rowsSkipped := 0;
      i := index;
      ghost var goal := if rowsToSkip >= 1 then NthLineStart(csv, index, rowsToSkip) else |csv|;
      ghost var left: nat := if rowsToSkip >= 1 then rowsToSkip else 0;
      while true
        invariant Tracks(csv, i) && 0 <= rowsSkipped
        invariant rowsToSkip >= 1 ==> rowsSkipped + left == rowsToSkip && left >= 1 && NthLineStart(csv, i, left) == goal
        decreases |csv| - i
      {
        ghost var s := i;
        ghost var j := WhitespaceEnd(csv, s, delimiter);
        WhitespaceSkipped(csv, s, delimiter);
        var token;
        token, i := NextToken(csv, i);
        if token == FileEnd {
          if rowsToSkip >= 1 {
            LineEndSame(csv, s, j);
            NthLineSameLine(csv, s, i, left);
            NthLineAtEnd(csv, left);
          }
          break;
        } else if token == LineEnd {
          LineEndSame(csv, s, j);
          if rowsToSkip >= 1 {
            assert NextLine(csv, s) == i;
            NthLinePassed(csv, s, left);
            left := left - 1;
          }
          rowsSkipped := rowsSkipped + 1;
          if rowsSkipped == rowsToSkip {
            break;
          }
        } else {
          LineEndSame(csv, s, i);
          if rowsToSkip >= 1 {
            NthLineSameLine(csv, s, i, left);
          }
        }
      }
    }

    /**
     * parse_value: after the whitespace, take the text up to the next delimiter, line feed or
     * carriage return and decode it; a number followed by spaces leaves the position just after the number.
     */
    method ParseValue(csv: string, index: nat) returns (v: JsonValue, i: nat)
      requires Tracks(csv, index)
      requires TokenAt(csv, WhitespaceEnd(csv, index, delimiter), delimiter) == Value
      modifies this`indexIntoCurLine
      ensures (v, i) == ValueAt(csv, WhitespaceEnd(csv, index, delimiter), delimiter, numberLength)
      ensures Tracks(csv, i)
    {
      i := EatWhitespace(csv, index);
      var saveI := ScanValue(csv, i);
      var diff := saveI - i;
      var value := csv[i..saveI];
      var consumed;
      v, consumed := DecodeValue(value);
      var back := |value| - consumed;
      ghost var j := i;
      ValueWithinLine(csv, j, delimiter);
      AtWithin(csv, j, saveI, j + consumed, curLineNum, indexIntoCurLine, beginningOfLineIndex);
      indexIntoCurLine := indexIntoCurLine + diff;
      i := saveI - back;
      indexIntoCurLine := indexIntoCurLine - back;
      assert i == j + consumed && indexIntoCurLine == i - beginningOfLineIndex;
      ValueAtDecodes(csv, j, delimiter, numberLength, v, consumed);
    }

    /** The scanning half of parse_value: the first delimiter, line feed or carriage return at or after `i`. */
    method ScanValue(csv: string, i: nat) returns (saveI: nat)
      requires i <= |csv| == csvSize
      ensures saveI == ValueEnd(csv, i, delimiter)
    {
      saveI := i;
      while saveI != csvSize && csv[saveI] != delimiter && csv[saveI] != '\n' && csv[saveI] != '\r'
        invariant i <= saveI <= |csv| && ValueEnd(csv, saveI, delimiter) == ValueEnd(csv, i, delimiter)
        decreases |csv| - saveI
      {
        saveI := saveI + 1;
      }
    }

    /**
     * The decoding half of parse_value on the text of one value: returns the value and how many
     * characters of the text it consumes.
     */
    method DecodeValue(value: string) returns (v: JsonValue, consumed: nat)
      requires |value| > 0
      ensures (v, consumed) == ParsedValue(value, delimiter, numberLength)
      ensures 1 <= consumed <= |value|
    {
      var plusSign := if value[0] == '+' then 1 else 0;
      var body := value[plusSign..];
      var k := if numberLength(body) <= |body| then numberLength(body) else |body|;
      consumed := |value|;
      if k == 0 {
        v := Text(RTrim(value));
      } else if plusSign + k != |value| {
        var ptr := plusSign + k;
        while delimiter != ' ' && ptr != |value|
          invariant plusSign + k <= ptr <= |value| && forall q :: plusSign + k <= q < ptr ==> value[q] == ' '
          invariant delimiter == ' ' ==> ptr == plusSign + k
          decreases |value| - ptr
        {
          if value[ptr] != ' ' {
            break;
          }
          ptr := ptr + 1;
        }
        if ptr == |value| {
          ghost var rest := value[plusSign + k..];
          assert AllSpaces(rest) by {
            forall q | 0 <= q < |rest| ensures rest[q] == ' ' {
              assert rest[q] == value[plusSign + k + q];
            }
          }
          consumed := plusSign + k;
          v := Number(body[..k]);
        } else {
          assert !AllSpaces(value[plusSign + k..]) || delimiter == ' ' by {
            if delimiter != ' ' {
              assert value[plusSign + k..][ptr - (plusSign + k)] == value[ptr];
            }
          }
          v := Text(RTrim(value));
        }
      } else {
        v := Number(body[..k]);
      }
    }

    /**
     * parse_header: read one line into the header, dropping delimiters; the line feed (or the end
     * of the text) ends it and is consumed.
     */
    method ParseHeader(csv: string, index: nat, header: seq<JsonValue>) returns (i: nat, headerOut: seq<JsonValue>)
      requires Tracks(csv, index)
      modifies this`indexIntoCurLine, this`curLineNum, this`beginningOfLineIndex
      ensures Tracks(csv, i) && i == NextLine(csv, index)
      ensures headerOut == header + ValuesOf(LineItems(csv, index, delimiter, numberLength))
    {
      i, headerOut := index, header;
      ghost var d := delimiter;
      ghost var target := header + ValuesOf(LineItems(csv, index, d, numberLength));
      ghost var rem := LineItems(csv, index, d, numberLength);
      while true
        invariant Tracks(csv, i) && delimiter == d && NextLine(csv, i) == NextLine(csv, index)
        invariant rem == LineItems(csv, i, d, numberLength) && headerOut + ValuesOf(rem) == target
        decreases |csv| - i
      {
        var token := LookAhead(csv, i);
        ghost var s := i;
        if token == LineEnd || token == FileEnd {
          ItemsStepEnd(csv, s, d, numberLength);
          token, i := NextToken(csv, i);
          return;
        } else if token == Delimiter {
          i := PassSeparator(csv, i);
          ValuesOfCons(Sep, LineItems(csv, i, d, numberLength));
          rem := LineItems(csv, i, d, numberLength);
        } else {
          var v;
          v, i := PassValue(csv, i);
          ValuesOfCons(Val(v), LineItems(csv, i, d, numberLength));
          SeqAssoc(headerOut, [v], ValuesOf(LineItems(csv, i, d, numberLength)));
          headerOut := headerOut + [v];
          rem := LineItems(csv, i, d, numberLength);
        }
      }
    }

    /**
     * parse_line: read one data line, appending each value to the column numbered by the
     * delimiters before it. A value beyond the last column is the out-of-range failure of
     * `columns.at`. At the end of the line, a value count different from the column count sets
     * the failure flag and records the message and the line.
     */
    method ParseLine(csv: string, index: nat, columns: seq<seq<JsonValue>>)
      returns (i: nat, columnsOut: seq<seq<JsonValue>>, outOfRange: bool)
      requires Tracks(csv, index)
      modifies this`indexIntoCurLine, this`curLineNum, this`beginningOfLineIndex, this`success, this`errors
      ensures var placed := Place(columns, LineItems(csv, index, delimiter, numberLength), 0);
              outOfRange == placed.None?
              && (!outOfRange ==> columnsOut == placed.value && Tracks(csv, i) && i == NextLine(csv, index))
      ensures var got := |ValuesOf(LineItems(csv, index, delimiter, numberLength))|;
              if !outOfRange && got != |columns| then
                !success && errors == old(errors) + RaggedRowErrors(old(curLineNum), |columns|, got, LineText(csv, old(beginningOfLineIndex)))
              else
                success == old(success) && errors == old(errors)
    {
      var numColumns := |columns|;
      var thisCurLineNum := curLineNum;
      var thisBeginningOfLineIndex := beginningOfLineIndex;
      var parsedValues;
      i, columnsOut, parsedValues, outOfRange := PlaceLine(csv, index, columns);
      if outOfRange {
        return;
      }
      ItemsStepEnd(csv, i, delimiter, numberLength);
      if parsedValues != numColumns {
        success := false;
        var line := LineText(csv, thisBeginningOfLineIndex);
        errors := errors + RaggedRowErrors(thisCurLineNum, numColumns, parsedValues, line);
      }
      var token;
      token, i := NextToken(csv, i);
    }

    /**
     * The loop of parse_line up to the end of the line, which it leaves unconsumed: values go to
     * their columns and are counted, delimiters move to the next column.
     */
    method PlaceLine(csv: string, index: nat, columns: seq<seq<JsonValue>>)
      returns (i: nat, columnsOut: seq<seq<JsonValue>>, parsedValues: nat, outOfRange: bool)
      requires Tracks(csv, index)
      modifies this`indexIntoCurLine, this`curLineNum, this`beginningOfLineIndex
      ensures var items := LineItems(csv, index, delimiter, numberLength);
              var placed := Place(columns, items, 0);
              outOfRange == placed.None?
              && (!outOfRange ==> columnsOut == placed.value && parsedValues == |ValuesOf(items)|)
      ensures !outOfRange ==> Tracks(csv, i) && NextLine(csv, i) == NextLine(csv, index)
                              && var t := TokenAt(csv, WhitespaceEnd(csv, i, delimiter), delimiter); t == LineEnd || t == FileEnd
    {
      var columnNum: nat := 0;
      parsedValues := 0;
      i, columnsOut, outOfRange := index, columns, false;
      ghost var d := delimiter;
      ghost var items := LineItems(csv, index, d, numberLength);
      ghost var rem := items;
      while true
        invariant Tracks(csv, i) && delimiter == d && NextLine(csv, i) == NextLine(csv, index)
        invariant rem == LineItems(csv, i, d, numberLength)
        invariant Place(columnsOut, rem, columnNum) == Place(columns, items, 0)
        invariant parsedValues + |ValuesOf(rem)| == |ValuesOf(items)|
        decreases |csv| - i
      {
        var token := LookAhead(csv, i);
        if token == LineEnd || token == FileEnd {
          ItemsStepEnd(csv, i, d, numberLength);
          return;
        } else if token == Delimiter {
          i := PassSeparator(csv, i);
          TailOfCons(Sep, LineItems(csv, i, d, numberLength));
          rem := rem[1..];
          columnNum := columnNum + 1;
        } else {
          if columnNum >= |columnsOut| {
            outOfRange := true;
            return;
          }
          var v;
          v, i := PassValue(csv, i);
          TailOfCons(Val(v), LineItems(csv, i, d, numberLength));
          columnsOut := columnsOut[columnNum := columnsOut[columnNum] + [v]];
          parsedValues := parsedValues + 1;
          rem := rem[1..];
        }
      }
    }

    /** One delimiter of a data line, consumed: the line's items are a separator, then the items after it. */
    method PassSeparator(csv: string, index: nat) returns (i: nat)
      requires Tracks(csv, index) && TokenAt(csv, WhitespaceEnd(csv, index, delimiter), delimiter) == Delimiter
      modifies this`indexIntoCurLine, this`curLineNum, this`beginningOfLineIndex
      ensures Tracks(csv, i) && index < i
      ensures LineItems(csv, index, delimiter, numberLength) == [Sep] + LineItems(csv, i, delimiter, numberLength)
      ensures NextLine(csv, i) == NextLine(csv, index)
    {
      ItemsStepDelimiter(csv, index, delimiter, numberLength);
      var token;
      token, i := NextToken(csv, index);
    }

    /** One value of a data line, parsed: the line's items are that value, then the items after it. */
    method PassValue(csv: string, index: nat) returns (v: JsonValue, i: nat)
      requires Tracks(csv, index) && TokenAt(csv, WhitespaceEnd(csv, index, delimiter), delimiter) == Value
      modifies this`indexIntoCurLine
      ensures Tracks(csv, i) && index < i
      ensures LineItems(csv, index, delimiter, numberLength) == [Val(v)] + LineItems(csv, i, delimiter, numberLength)
      ensures NextLine(csv, i) == NextLine(csv, index)
    {
      ItemsStepValue(csv, index, delimiter, numberLength);
      v, i := ParseValue(csv, index);
    }

    /**
     * parse_csv: pass over the byte order mark, skip rows or read the header, count the columns
     * on the first data line, then parse lines until the text ends or a line fails. The loop's
     * first pass (the header and the column count) and its later passes (one data line each)
     * are the two helpers below.
     */
    method ParseCsv(csv: string, index: nat) returns (root: Root, outOfRange: bool)
      requires index == 0 && Tracks(csv, index) && |csv| > 0 && success
      modifies this`indexIntoCurLine, this`curLineNum, this`beginningOfLineIndex, this`success, this`errors
      ensures var spec := DecodeSpec(csv, delimiter, rowsToSkip, numberLength);
              (if outOfRange then spec.0 == OutOfRange else spec.0 == Decoded(root))
              && success == spec.1 && errors == old(errors) + spec.2
    {
      var hasHeader := rowsToSkip == 1;
      var i := SkipPreamble(csv, index);
      var header: seq<JsonValue> := [];
      var columns: seq<seq<JsonValue>> := [];
      outOfRange := false;
      if i != csvSize {
        i, header, columns := FirstRow(csv, i, hasHeader);
        ghost var h := header;
        ParseLinesErrors(csv, i, columns, delimiter, numberLength);
        columns, outOfRange := ParseDataLines(csv, i, columns);
        assert DecodeSpec(csv, delimiter, rowsToSkip, numberLength) == DataOutcome(csv, i, h, delimiter, numberLength);
      }
      root := Root(header, columns);
    }

    /**
     * The later passes of parse_csv's loop: one data line each, until the text ends, a line
     * fails with `columns.at`, or a ragged line clears the success flag.
     */
    method ParseDataLines(csv: string, index: nat, columns: seq<seq<JsonValue>>)
      returns (columnsOut: seq<seq<JsonValue>>, outOfRange: bool)
      requires Tracks(csv, index) && success
      modifies this`indexIntoCurLine, this`curLineNum, this`beginningOfLineIndex, this`success, this`errors
      ensures var spec := ParseLines(csv, index, columns, delimiter, numberLength);
              outOfRange == spec.0.None? && (!outOfRange ==> columnsOut == spec.0.value)
              && success == (spec.1 == []) && errors == old(errors) + spec.1
    {
      ghost var d := delimiter;
      ghost var target := ParseLines(csv, index, columns, d, numberLength);
      var i := index;
      columnsOut, outOfRange := columns, false;
      while true
        invariant Tracks(csv, i) && delimiter == d && success && errors == old(errors)
        invariant ParseLines(csv, i, columnsOut, d, numberLength) == target
        decreases |csv| - i
      {
        if i == csvSize {
          return;
        }
        AtLineStart(csv, i, curLineNum, indexIntoCurLine, beginningOfLineIndex);
        var lineOutOfRange;
        i, columnsOut, lineOutOfRange := ParseLine(csv, i, columnsOut);
        if lineOutOfRange {
          outOfRange := true;
          return;
        }
        if !success {
          return;
        }
      }
    }

    /** The start of parse_csv: pass over the byte order mark, then skip rows when more than one is to be skipped. */
    method SkipPreamble(csv: string, index: nat) returns (i: nat)
      requires index == 0 && Tracks(csv, index)
      modifies this`indexIntoCurLine, this`curLineNum, this`beginningOfLineIndex
      ensures Tracks(csv, i)
      ensures var start := if HasByteOrderMark(csv) then 3 else 0;
              i == if rowsToSkip > 1 then NthLineStart(csv, start, rowsToSkip) else start
    {
      i := index;
      if csvSize > 3 {
        if csv[0] == '\U{EF}' && csv[1] == '\U{BB}' && csv[2] == '\U{BF}' {
          AtWithin(csv, 0, 3, 3, curLineNum, indexIntoCurLine, beginningOfLineIndex);
          i := i + 3;
          indexIntoCurLine := indexIntoCurLine + 3;
        }
      }
      if rowsToSkip > 1 {
        i := SkipRows(csv, i);
      }
    }

    /**
     * The first pass of parse_csv's loop: read the header when there is one, then create one
     * empty column per column counted on the next line, which is left unconsumed.
     */
    method FirstRow(csv: string, index: nat, hasHeader: bool) returns (i: nat, header: seq<JsonValue>, columns: seq<seq<JsonValue>>)
      requires Tracks(csv, index)
      modifies this`indexIntoCurLine, this`curLineNum, this`beginningOfLineIndex
      ensures Tracks(csv, i)
      ensures header == if hasHeader then ValuesOf(LineItems(csv, index, delimiter, numberLength)) else []
      ensures i == if hasHeader then NextLine(csv, index) else index
      ensures columns == EmptyColumns(ColumnCount(csv, i, delimiter))
    {
      i, header := index, [];
      if hasHeader {
        i, header := ParseHeader(csv, i, header);
      }
      var numColumns := FindNumberColumns(csv, i);
      columns := [];
      for c := 0 to numColumns
        invariant columns == EmptyColumns(c)
      {
        columns := columns + [[]];
      }
    }

    /**
     * decode: an empty text records "CSV File is empty", fails and gives the null document;
     * otherwise the counters are reset, the delimiter and the rows to skip are taken, and the
     * text is parsed from its start. The error list is not cleared.
     */
    method Decode(csv: string, tDelimiter: char, tRowsToSkip: int) returns (result: DecodeResult)
      requires ValidDelimiter(tDelimiter)
      modifies this
      ensures var spec := DecodeSpec(csv, tDelimiter, tRowsToSkip, numberLength);
              result == spec.0 && success == spec.1 && errors == old(errors) + spec.2
    {
      if |csv| == 0 {
        errors := errors + [("CSV File is empty", false)];
        success := false;
        return Null;
      }
      success := true;
      curLineNum := 1;
      indexIntoCurLine := 0;
      beginningOfLineIndex := 0;
      delimiter := tDelimiter;
      rowsToSkip := tRowsToSkip;
      csvSize := |csv|;
      var index := 0;
      var root, outOfRange := ParseCsv(csv, index);
      result := if outOfRange then OutOfRange else Decoded(root);
    }
  }
}
