/** The CSV encodings of a row, quoted where need be or where one likes, and the way back through framing
    and parsing. */
module CopyCsv {
  import opened Text
  import opened CopyRecords

  /** No character that ends a field or a line, or that quotes. */
  predicate Unmarked(s: string, o: Options) {
    forall i :: 0 <= i < |s| ==> s[i] != o.delimiter && s[i] != o.quote && s[i] != '\n' && s[i] != '\r'
  }

  /** What COPY accepts as CSV options.  PostgreSQL refuses any other NULL text. */
  predicate AcceptedOptions(o: Options) {
    && o.format == CsvFormat && Unmarked(o.nullText, o)
    && o.delimiter != '\n' && o.delimiter != '\r'
    && o.quote != o.delimiter && o.escape != o.delimiter
  }

  /** Those of them whose quote no terminator can be confused with. */
  predicate GoodOptions(o: Options) {
    AcceptedOptions(o) && o.quote != '\n' && o.quote != '\r'
  }

  function QuoteChar(c: char, o: Options): string {
    if c == o.quote || c == o.escape then [o.escape, c] else [c]
  }

  function QuoteText(s: string, o: Options): string {
    if s == "" then "" else QuoteChar(s[0], o) + QuoteText(s[1..], o)
  }

  function Quoted(value: string, o: Options): string {
    [o.quote] + (QuoteText(value, o) + [o.quote])
  }

  /** NULL is its text.  A value is quoted, or as it is if it holds no mark and is not the NULL text. */
  predicate WrittenAs(text: string, f: Field, o: Options) {
    match f
    case NullField => text == o.nullText
    case Field(value) => text == Quoted(value, o) || (text == value && value != o.nullText && Unmarked(value, o))
  }

  predicate RowWrittenAs(texts: seq<string>, fields: seq<Field>, o: Options) {
    |texts| == |fields| && forall i :: 0 <= i < |fields| ==> WrittenAs(texts[i], fields[i], o)
  }

  function JoinRow(texts: seq<string>, o: Options): string
    requires texts != []
  {
    if |texts| == 1 then texts[0] else texts[0] + ([o.delimiter] + JoinRow(texts[1..], o))
  }

  predicate LineEnds(terminator: string) {
    terminator == "\n" || terminator == "\r\n"
  }

  /** What may follow a field: the end, the delimiter or a line end. */
  predicate Closed(post: string, o: Options) {
    post == "" || post[0] == o.delimiter || post[0] == '\n' || post[0] == '\r'
  }

  // ------------------------------------------------------------------------------- regrouping

  lemma GroupField(pre: string, q: string, text: string, post: string)
    ensures pre + ((q + (text + q)) + post) == (pre + q) + (text + (q + post))
  {
  }

  lemma GroupChar(pre: string, e: string, rest: string, tail: string)
    ensures pre + ((e + rest) + tail) == (pre + e) + (rest + tail)
  {
  }

  lemma GroupRow(pre: string, f: string, d: string, more: string, tail: string)
    ensures pre + ((f + (d + more)) + tail) == pre + (f + (d + (more + tail)))
    ensures pre + (f + (d + (more + tail))) == (pre + f + d) + (more + tail)
  {
  }

  lemma GroupTail(pre: string, f: string, d: string, rest: string)
    ensures pre + (f + (d + rest)) == (pre + f + d) + rest
  {
  }

  /** The character that follows two parts. */
  lemma CharAfter(pre: string, f: string, post: string)
    requires post != ""
    ensures (pre + (f + post))[|pre| + |f|] == post[0]
  {
  }

  // --------------------------------------------------------------------------------- one field

  lemma {:induction false} QuotedReads(pre: string, s: string, post: string, o: Options)
    requires GoodOptions(o) && (post == "" || post[0] != o.quote || o.quote != o.escape)
    ensures QuotedFrom(pre + (QuoteText(s, o) + ([o.quote] + post)), o, |pre|) == Some(Part(s, |pre| + |QuoteText(s, o)| + 1))
    decreases |s|
  {
    var tail := [o.quote] + post;
    if s == "" {
      var record := pre + ("" + tail);
      assert record[|pre|] == o.quote;
      assert post != "" ==> record[|pre| + 1] == post[0];
    } else {
      var e, rest := QuoteChar(s[0], o), QuoteText(s[1..], o);
      var record := pre + ((e + rest) + tail);
      GroupChar(pre, e, rest, tail);
      QuotedReads(pre + e, s[1..], post, o);
      assert record[|pre|] == e[0];
      if |e| == 2 {
        assert record[|pre| + 1] == e[1];
      }
      assert s == [s[0]] + s[1..];
    }
  }

  lemma {:induction false} UnmarkedReads(pre: string, text: string, post: string, o: Options, k: nat)
    requires Unmarked(text, o) && (post == "" || post[0] == o.delimiter) && k <= |text|
    ensures PlainEnd(pre + (text + post), o, |pre| + k) == Some(|pre| + |text|)
    decreases |text| - k
  {
    var record := pre + (text + post);
    if k < |text| {
      assert record[|pre| + k] == text[k];
      UnmarkedReads(pre, text, post, o, k + 1);
    } else {
      assert post != "" ==> record[|pre| + k] == post[0];
    }
  }

  lemma UnquotedReads(pre: string, text: string, post: string, o: Options)
    requires GoodOptions(o) && Unmarked(text, o) && (post == "" || post[0] == o.delimiter)
    ensures FieldAt(pre + (text + post), o, |pre|) == Some(Part(Plain(text, o), |pre| + |text|))
  {
    var record := pre + (text + post);
    UnmarkedReads(pre, text, post, o, 0);
    assert record[|pre|..|pre| + |text|] == text;
    assert text != "" ==> record[|pre|] == text[0];
    assert text == "" && post != "" ==> record[|pre|] == post[0];
  }

  lemma QuotedFieldReads(pre: string, value: string, post: string, o: Options)
    requires GoodOptions(o) && (post == "" || post[0] == o.delimiter)
    ensures FieldAt(pre + (Quoted(value, o) + post), o, |pre|) == Some(Part(Field(value), |pre| + |Quoted(value, o)|))
  {
    var record := pre + (Quoted(value, o) + post);
    assert record[|pre|] == o.quote;
    GroupField(pre, [o.quote], QuoteText(value, o), post);
    QuotedReads(pre + [o.quote], value, post, o);
    if post != "" {
      CharAfter(pre, Quoted(value, o), post);
    }
  }

  lemma FieldReads(pre: string, text: string, f: Field, post: string, o: Options)
    requires GoodOptions(o) && WrittenAs(text, f, o) && (post == "" || post[0] == o.delimiter)
    ensures FieldAt(pre + (text + post), o, |pre|) == Some(Part(f, |pre| + |text|))
  {
    if f.Field? && text == Quoted(f.value, o) {
      QuotedFieldReads(pre, f.value, post, o);
    } else {
      UnquotedReads(pre, text, post, o);
    }
  }

  /** A quote that is never closed is refused. */
  lemma {:induction false} UnclosedRefused(pre: string, s: string, o: Options)
    requires GoodOptions(o)
    ensures QuotedFrom(pre + QuoteText(s, o), o, |pre|).None?
    decreases |s|
  {
    if s != "" {
      var e, rest := QuoteChar(s[0], o), QuoteText(s[1..], o);
      var record := pre + (e + rest);
      assert record == (pre + e) + rest;
      UnclosedRefused(pre + e, s[1..], o);
      assert record[|pre|] == e[0];
      if |e| == 2 {
        assert record[|pre| + 1] == e[1];
      }
    }
  }

  lemma {:induction false} UnmarkedStops(pre: string, text: string, post: string, o: Options, k: nat)
    requires Unmarked(text, o) && k <= |text| && o.quote != o.delimiter
    ensures PlainEnd(pre + (text + ([o.quote] + post)), o, |pre| + k).None?
    decreases |text| - k
  {
    var record := pre + (text + ([o.quote] + post));
    if k < |text| {
      assert record[|pre| + k] == text[k];
      UnmarkedStops(pre, text, post, o, k + 1);
    } else {
      assert record[|pre| + k] == o.quote;
    }
  }

  /** No field is read where a quote is not closed, where something other than a delimiter follows the
      closing quote, or where a quote turns up inside unquoted text. */
  lemma MalformedRefused(pre: string, value: string, post: string, o: Options)
    requires GoodOptions(o)
    ensures FieldAt(pre + ([o.quote] + QuoteText(value, o)), o, |pre|).None?
    ensures post != "" && post[0] != o.delimiter && (post[0] != o.quote || o.quote != o.escape) ==>
      FieldAt(pre + (Quoted(value, o) + post), o, |pre|).None?
    ensures value != "" && Unmarked(value, o) ==> FieldAt(pre + (value + ([o.quote] + post)), o, |pre|).None?
  {
    var q := [o.quote];
    assert pre + (q + QuoteText(value, o)) == (pre + q) + QuoteText(value, o);
    UnclosedRefused(pre + q, value, o);
    assert (pre + (q + QuoteText(value, o)))[|pre|] == o.quote;
    if post != "" && post[0] != o.delimiter && (post[0] != o.quote || o.quote != o.escape) {
      GroupField(pre, q, QuoteText(value, o), post);
      QuotedReads(pre + q, value, post, o);
      CharAfter(pre, Quoted(value, o), post);
      assert (pre + (Quoted(value, o) + post))[|pre|] == o.quote;
    }
    if value != "" && Unmarked(value, o) {
      UnmarkedStops(pre, value, post, o, 0);
      assert (pre + (value + (q + post)))[|pre|] == value[0];
    }
  }

  /** A field followed by a delimiter, a trailing one included, is followed by the fields after it. */
  lemma NextField(record: string, o: Options, i: nat, end: nat, f: Field, rest: seq<Field>)
    requires i <= end < |record| && FieldAt(record, o, i) == Some(Part(f, end))
    requires CsvFieldsFrom(record, o, end + 1) == Some(rest)
    ensures CsvFieldsFrom(record, o, i) == Some([f] + rest)
  {
    if end + 1 == |record| {
      assert record[|record|..|record|] == "";
      assert FieldAt(record, o, |record|) == Some(Part(Plain("", o), |record|));
      assert [f] + [Plain("", o)] == [f, Plain("", o)];
    }
  }

  /** A first field is read in front of those that are read after its delimiter. */
  lemma FirstReads(pre: string, f: string, field: Field, rest: string, fields: seq<Field>, o: Options)
    requires GoodOptions(o) && WrittenAs(f, field, o)
    requires var before := pre + f + [o.delimiter]; CsvFieldsFrom(before + rest, o, |before|) == Some(fields)
    ensures CsvFieldsFrom(pre + (f + ([o.delimiter] + rest)), o, |pre|) == Some([field] + fields)
  {
    var d := [o.delimiter];
    GroupTail(pre, f, d, rest);
    FieldReads(pre, f, field, d + rest, o);
    NextField(pre + (f + (d + rest)), o, |pre|, |pre| + |f|, field, fields);
  }

  lemma OnlyReads(pre: string, text: string, field: Field, o: Options)
    requires GoodOptions(o) && WrittenAs(text, field, o)
    ensures CsvFieldsFrom(pre + text, o, |pre|) == Some([field])
  {
    assert text + "" == text;
    FieldReads(pre, text, field, "", o);
  }

  lemma {:induction false} RowReads(pre: string, texts: seq<string>, fields: seq<Field>, o: Options)
    requires GoodOptions(o) && fields != [] && RowWrittenAs(texts, fields, o)
    ensures CsvFieldsFrom(pre + JoinRow(texts, o), o, |pre|) == Some(fields)
    decreases |fields|
  {
    if |fields| == 1 {
      assert fields == [fields[0]];
      OnlyReads(pre, texts[0], fields[0], o);
    } else {
      assert fields == [fields[0]] + fields[1..];
      RowReads(pre + texts[0] + [o.delimiter], texts[1..], fields[1..], o);
      FirstReads(pre, texts[0], fields[0], JoinRow(texts[1..], o), fields[1..], o);
    }
  }

  // ------------------------------------------------------------------------------------ framing

  lemma {:induction false} ScanQuoted(pre: string, s: string, post: string, o: Options)
    requires GoodOptions(o) && post != "" && Closed(post, o)
    ensures var data := pre + (QuoteText(s, o) + ([o.quote] + post));
      CsvEnd(data, o, |pre|, true, false) == CsvEnd(data, o, |pre| + |QuoteText(s, o)| + 1, false, false)
    decreases |s|
  {
    var tail := [o.quote] + post;
    if s == "" {
      var data := pre + ("" + tail);
      assert data[|pre|] == o.quote && data[|pre| + 1] == post[0];
    } else {
      var e, rest := QuoteChar(s[0], o), QuoteText(s[1..], o);
      var data := pre + ((e + rest) + tail);
      GroupChar(pre, e, rest, tail);
      ScanQuoted(pre + e, s[1..], post, o);
      assert data[|pre|] == e[0];
      if |e| == 2 {
        assert data[|pre| + 1] == e[1];
      }
    }
  }

  lemma ScanOpening(data: string, o: Options, i: nat, j: nat)
    requires GoodOptions(o) && i < |data| && data[i] == o.quote && j <= |data|
    requires CsvEnd(data, o, i + 1, true, false) == CsvEnd(data, o, j, false, false)
    ensures CsvEnd(data, o, i, false, true) == CsvEnd(data, o, j, false, false)
  {
  }

  lemma OpensWith(pre: string, q: string, text: string, post: string)
    requires |q| == 1
    ensures var data := pre + ((q + (text + q)) + post);
      && data == (pre + q) + (text + (q + post)) && |pre + q| == |pre| + 1
      && |pre| + |q + (text + q)| == |pre + q| + |text| + 1 <= |data| && data[|pre|] == q[0]
  {
    GroupField(pre, q, text, post);
  }

  lemma ScanAround(pre: string, text: string, post: string, o: Options)
    requires GoodOptions(o)
    requires var data := (pre + [o.quote]) + (text + ([o.quote] + post));
      CsvEnd(data, o, |pre + [o.quote]|, true, false) == CsvEnd(data, o, |pre + [o.quote]| + |text| + 1, false, false)
    ensures var field := [o.quote] + (text + [o.quote]);
      CsvEnd(pre + (field + post), o, |pre|, false, true) == CsvEnd(pre + (field + post), o, |pre| + |field|, false, false)
  {
    OpensWith(pre, [o.quote], text, post);
    ScanOpening(pre + (([o.quote] + (text + [o.quote])) + post), o, |pre|, |pre| + |text| + 2);
  }

  /** Where the scan of a quoted field ends, for any text it holds. */
  ghost predicate PassesOver(pre: string, field: string, post: string, o: Options, fieldStart: bool) {
    CsvEnd(pre + (field + post), o, |pre|, false, true) == CsvEnd(pre + (field + post), o, |pre| + |field|, false, fieldStart)
  }

  lemma ScanValue(pre: string, value: string, post: string, o: Options)
    requires GoodOptions(o) && post != "" && Closed(post, o)
    ensures PassesOver(pre, Quoted(value, o), post, o, false)
  {
    ScanQuoted(pre + [o.quote], value, post, o);
    ScanAround(pre, QuoteText(value, o), post, o);
  }

  lemma {:induction false} ScanUnmarked(pre: string, text: string, post: string, o: Options, k: nat)
    requires Unmarked(text, o) && k <= |text|
    ensures var data := pre + (text + post);
      CsvEnd(data, o, |pre| + k, false, k == 0) == CsvEnd(data, o, |pre| + |text|, false, text == "")
    decreases |text| - k
  {
    if k < |text| {
      assert (pre + (text + post))[|pre| + k] == text[k];
      ScanUnmarked(pre, text, post, o, k + 1);
    }
  }

  lemma ScanField(pre: string, text: string, f: Field, post: string, o: Options)
    requires GoodOptions(o) && WrittenAs(text, f, o) && post != "" && Closed(post, o)
    ensures PassesOver(pre, text, post, o, text == "")
  {
    if f.Field? && text == Quoted(f.value, o) {
      ScanValue(pre, f.value, post, o);
    } else {
      ScanUnmarked(pre, text, post, o, 0);
    }
  }

  lemma ScanOne(data: string, o: Options, i: nat, fieldStart: bool)
    requires GoodOptions(o) && i < |data|
    ensures data[i] == o.delimiter ==> CsvEnd(data, o, i, false, fieldStart) == CsvEnd(data, o, i + 1, false, true)
    ensures data[i] == '\n' ==> CsvEnd(data, o, i, false, fieldStart) == Scan(i + 1, false)
    ensures data[i] == '\r' ==> CsvEnd(data, o, i, false, fieldStart) == CsvEnd(data, o, i + 1, false, fieldStart)
  {
  }

  /** A first field and its delimiter are passed over. */
  lemma ScanFirst(pre: string, f: string, field: Field, rest: string, o: Options)
    requires GoodOptions(o) && WrittenAs(f, field, o)
    ensures var before := pre + f + [o.delimiter];
      CsvEnd(pre + (f + ([o.delimiter] + rest)), o, |pre|, false, true) == CsvEnd(before + rest, o, |before|, false, true)
  {
    var d := [o.delimiter];
    GroupTail(pre, f, d, rest);
    ScanField(pre, f, field, d + rest, o);
    CharAfter(pre, f, d + rest);
    ScanOne(pre + (f + (d + rest)), o, |pre| + |f|, f == "");
  }

  /** The scan ends right after a line end. */
  lemma ScanLineEnd(pre: string, f: string, terminator: string, rest: string, o: Options, fieldStart: bool)
    requires GoodOptions(o) && LineEnds(terminator)
    ensures CsvEnd(pre + (f + (terminator + rest)), o, |pre| + |f|, false, fieldStart) == Scan(|pre| + |f| + |terminator|, false)
  {
    var data, i := pre + (f + (terminator + rest)), |pre| + |f|;
    CharAfter(pre, f, terminator + rest);
    ScanOne(data, o, i, fieldStart);
    if |terminator| == 2 {
      assert data[i + 1] == terminator[1];
      ScanOne(data, o, i + 1, fieldStart);
    }
  }

  lemma ScanOnly(pre: string, f: string, field: Field, terminator: string, rest: string, o: Options)
    requires GoodOptions(o) && WrittenAs(f, field, o) && LineEnds(terminator)
    ensures CsvEnd(pre + (f + (terminator + rest)), o, |pre|, false, true) == Scan(|pre| + |f| + |terminator|, false)
  {
    ScanField(pre, f, field, terminator + rest, o);
    ScanLineEnd(pre, f, terminator, rest, o, f == "");
  }

  lemma {:induction false} ScanRow(
      pre: string, texts: seq<string>, fields: seq<Field>, terminator: string, rest: string, o: Options)
    requires GoodOptions(o) && fields != [] && RowWrittenAs(texts, fields, o) && LineEnds(terminator)
    ensures var row := JoinRow(texts, o);
      CsvEnd(pre + (row + (terminator + rest)), o, |pre|, false, true) == Scan(|pre| + |row| + |terminator|, false)
    decreases |fields|
  {
    if |fields| == 1 {
      ScanOnly(pre, texts[0], fields[0], terminator, rest, o);
    } else {
      var f, d, more := texts[0], [o.delimiter], JoinRow(texts[1..], o);
      GroupRow(pre, f, d, more, terminator + rest);
      ScanFirst(pre, f, fields[0], more + (terminator + rest), o);
      ScanRow(pre + f + d, texts[1..], fields[1..], terminator, rest, o);
    }
  }

  lemma {:induction false} LastChar(texts: seq<string>, fields: seq<Field>, o: Options)
    requires GoodOptions(o) && fields != [] && RowWrittenAs(texts, fields, o)
    ensures var row := JoinRow(texts, o); row != "" ==> row[|row| - 1] != '\r'
    decreases |fields|
  {
    if |fields| > 1 {
      LastChar(texts[1..], fields[1..], o);
    }
  }

  lemma LineTrimmed(row: string, terminator: string)
    requires (row == "" || row[|row| - 1] != '\r') && LineEnds(terminator)
    ensures TrimTerminator(row + terminator) == row
  {
    var record := row + terminator;
    assert record[|record| - 1] == '\n';
    assert record[..|record| - 1] == if terminator == "\n" then row else row + "\r";
    assert (row + "\r")[..|row|] == row;
  }

  /** The written row is cut exactly out of the longer buffer and parsed back to its fields. */
  predicate RoundTrips(texts: seq<string>, fields: seq<Field>, o: Options, terminator: string, rest: string)
    requires texts != []
  {
    var row := JoinRow(texts, o);
    var data := row + (terminator + rest);
    && RecordEnd(data, o) == Scan(|row + terminator|, false)
    && data[..|row + terminator|] == row + terminator
    && TrimTerminator(row + terminator) == row
    && CsvFields(row, o) == Some(fields)
  }

  lemma CutAfterLine(row: string, terminator: string, rest: string)
    ensures var data := row + (terminator + rest);
      && |data| >= |row + terminator| && data[..|row + terminator|] == row + terminator
      && "" + data == data && "" + row == row
  {
  }

  /** The CSV round trip: quoted and unquoted fields mixed, either line end, line ends inside quotes
      included. */
  lemma CsvRoundTrip(texts: seq<string>, fields: seq<Field>, o: Options, terminator: string, rest: string)
    requires GoodOptions(o) && fields != [] && RowWrittenAs(texts, fields, o) && LineEnds(terminator)
    ensures RoundTrips(texts, fields, o, terminator, rest)
  {
    CutAfterLine(JoinRow(texts, o), terminator, rest);
    ScanRow("", texts, fields, terminator, rest, o);
    LastChar(texts, fields, o);
    LineTrimmed(JoinRow(texts, o), terminator);
    RowReads("", texts, fields, o);
  }

  /** COPY does not refuse a carriage return as the quote.  The closing quote of a record is then trimmed
      off with its terminator. */
  lemma ReturnQuoteFails(o: Options)
    requires AcceptedOptions(o) && o.quote == '\r'
    ensures RowWrittenAs([Quoted("", o)], [Field("")], o) && !RoundTrips([Quoted("", o)], [Field("")], o, "\n", "")
  {
    var row := JoinRow([Quoted("", o)], o);
    assert row == "\r\r";
    var record := row + "\n";
    assert record[..2] == "\r\r" && "\r\r"[..1] == "\r";
    assert TrimTerminator(record) == "\r";
  }

  /** Nor does it refuse a line feed.  A record that is an empty text is then never ended. */
  lemma FeedQuoteFails(o: Options)
    requires AcceptedOptions(o) && o.quote == '\n'
    ensures RowWrittenAs([""], [Plain("", o)], o) && !RoundTrips([""], [Plain("", o)], o, "\n", "")
  {
    var row := JoinRow([""], o);
    assert row == "" && row + ("\n" + "") == "\n";
    assert CsvEnd("\n", o, 1, true, false) == Scan(0, true);
  }

  /** However they are written and ended, all rows come back. */
  ghost predicate AllComeBack(o: Options) {
    forall texts, fields, terminator, rest ::
      fields != [] && RowWrittenAs(texts, fields, o) && LineEnds(terminator) ==> RoundTrips(texts, fields, o, terminator, rest)
  }

  /** Whatever the accepted options, every row comes back exactly when the quote is no line end. */
  lemma RowsComeBackExactly(o: Options)
    requires AcceptedOptions(o)
    ensures AllComeBack(o) <==> o.quote != '\n' && o.quote != '\r'
  {
    if o.quote == '\r' {
      ReturnQuoteFails(o);
    } else if o.quote == '\n' {
      FeedQuoteFails(o);
    } else {
      forall texts, fields: seq<Field>, terminator, rest: string
        | fields != [] && RowWrittenAs(texts, fields, o) && LineEnds(terminator)
        ensures RoundTrips(texts, fields, o, terminator, rest)
      {
        CsvRoundTrip(texts, fields, o, terminator, rest);
      }
    }
  }
}
