/** The escaped text encoding of a row, and its way back through framing and parsing. */
module CopyText {
  import opened Text
  import opened CopyRecords

  predicate IsLetter(c: char) {
    'a' <= c <= 'z' || 'A' <= c <= 'Z'
  }

  /** A delimiter that no escape sequence and no terminator can be confused with. */
  predicate GoodDelimiter(d: char) {
    d != '\\' && d != '.' && !IsLetter(d) && !IsDigit(d) && d != '\n' && d != '\r' && d != '\0'
  }

  /** The character that follows the backslash when c is escaped, and c itself when it is not. */
  function Letter(c: char): char {
    if c == '\U{08}' then 'b' else if c == '\U{0C}' then 'f' else if c == '\n' then 'n'
    else if c == '\r' then 'r' else if c == '\t' then 't' else if c == '\U{0B}' then 'v' else c
  }

  function EscapeChar(c: char, d: char): string {
    if Letter(c) != c || c == '\\' || c == d then ['\\', Letter(c)] else [c]
  }

  function EncodeText(s: string, d: char): string {
    if s == "" then "" else EscapeChar(s[0], d) + EncodeText(s[1..], d)
  }

  function EncodeField(f: Field, o: Options): string {
    match f case NullField => o.nullText case Field(value) => EncodeText(value, o.delimiter)
  }

  function EncodeRow(fields: seq<Field>, o: Options): string
    requires fields != []
  {
    if |fields| == 1 then EncodeField(fields[0], o)
    else EncodeField(fields[0], o) + ([o.delimiter] + EncodeRow(fields[1..], o))
  }

  predicate OneLine(s: string) {
    forall i :: 0 <= i < |s| ==> s[i] != '\n' && s[i] != '\r'
  }

  /** A delimiter as above, and as NULL the default \N or any text without backslash, delimiter and line end. */
  predicate GoodOptions(o: Options) {
    && o.format == TextFormat && GoodDelimiter(o.delimiter) && OneLine(o.nullText) && o.delimiter !in o.nullText
    && (o.nullText == "\\N" || '\\' !in o.nullText)
  }

  /** No value is written like NULL. */
  predicate Unambiguous(fields: seq<Field>, o: Options) {
    forall i :: 0 <= i < |fields| && fields[i].Field? ==> EncodeField(fields[i], o) != o.nullText
  }

  // --------------------------------------------------------------------------------- one field

  lemma EscapeReads(raw: string, i: nat, c: char, d: char)
    requires GoodDelimiter(d) && i < |raw| && raw[i] == Letter(c) && (Letter(c) != c || c == '\\' || c == d)
    ensures EscapeAt(raw, i) == Escape(c, 1)
  {
  }

  /** The number that digits spell in a base. */
  function Number(digits: seq<nat>, base: nat): nat {
    if digits == [] then 0 else base * Number(digits[..|digits| - 1], base) + digits[|digits| - 1]
  }

  function DigitChar(digit: nat, upper: bool): char
    requires digit < 16
  {
    if upper then "0123456789ABCDEF"[digit] else "0123456789abcdef"[digit]
  }

  /** An x and one or two hexadecimal digits, in either case, stand for the byte they spell; without a digit
      the x stands for itself. */
  lemma HexReads(raw: string, i: nat, digits: seq<nat>, upper: seq<bool>)
    requires i < |raw| && raw[i] == 'x' && |digits| == |upper| <= 2 && i + 1 + |digits| <= |raw|
    requires forall k :: 0 <= k < |digits| ==> digits[k] < 16 && raw[i + 1 + k] == DigitChar(digits[k], upper[k])
    requires |digits| == 2 || i + 1 + |digits| == |raw| || !IsHex(raw[i + 1 + |digits|])
    ensures EscapeAt(raw, i).length == 1 + |digits|
    ensures if digits == [] then EscapeAt(raw, i).value == 'x' else EscapeAt(raw, i).value as int == Number(digits, 16)
  {
    forall k | 0 <= k < |digits|
      ensures IsHex(raw[i + 1 + k]) && HexDigit(raw[i + 1 + k]) == digits[k]
    {
      DigitReads(digits[k], upper[k]);
    }
    NumberOf(digits, 16);
  }

  lemma DigitReads(digit: nat, upper: bool)
    requires digit < 16
    ensures IsHex(DigitChar(digit, upper)) && HexDigit(DigitChar(digit, upper)) == digit
  {
  }

  lemma NumberOf(digits: seq<nat>, base: nat)
    ensures |digits| == 1 ==> Number(digits, base) == digits[0]
    ensures |digits| == 2 ==> Number(digits, base) == base * digits[0] + digits[1]
    ensures |digits| == 3 ==> Number(digits, base) == base * (base * digits[0] + digits[1]) + digits[2]
  {
    if |digits| > 0 {
      assert Number([], base) == 0;
      var init := digits[..|digits| - 1];
      if |init| > 0 {
        var two := init[..|init| - 1];
        assert two == [] || (|two| == 1 ==> two[..0] == []);
      }
    }
  }

  /** One to three octal digits stand for the byte they spell, or for the largest one.  PostgreSQL takes
      their low eight bits: the two agree exactly when the number is a byte or those bits are all set. */
  lemma OctalReads(raw: string, i: nat, digits: seq<nat>)
    requires 1 <= |digits| <= 3 && i + |digits| <= |raw|
    requires forall k :: 0 <= k < |digits| ==> digits[k] < 8 && raw[i + k] == DigitChar(digits[k], false)
    requires |digits| == 3 || i + |digits| == |raw| || !IsOctal(raw[i + |digits|])
    ensures var n, e := Number(digits, 8), EscapeAt(raw, i);
      && e.length == |digits| && e.value as int == (if n < 256 then n else 255)
      && (e.value as int == n % 256 <==> n < 256 || n % 256 == 255)
  {
    forall k | 0 <= k < |digits|
      ensures IsOctal(raw[i + k]) && HexDigit(raw[i + k]) == digits[k]
    {
      OctalDigitReads(digits[k]);
    }
    NumberOf(digits, 8);
    IsOctalEscape(raw, i);
    OctalByte(Number(digits, 8));
  }

  lemma IsOctalEscape(raw: string, i: nat)
    requires i < |raw| && IsOctal(raw[i])
    ensures EscapeAt(raw, i) == OctalEscape(raw, i)
  {
  }

  lemma OctalByte(n: nat)
    requires n < 512
    ensures ByteOf(n) as int == (if n < 256 then n else 255)
    ensures ByteOf(n) as int == n % 256 <==> n < 256 || n % 256 == 255
  {
  }

  lemma OctalDigitReads(digit: nat)
    requires digit < 8
    ensures IsOctal(DigitChar(digit, false)) && HexDigit(DigitChar(digit, false)) == digit
  {
  }

  lemma {:induction false} DecodeEncoded(pre: string, s: string, d: char)
    requires GoodDelimiter(d)
    ensures DecodeFrom(pre + EncodeText(s, d), |pre|) == Some(s)
    decreases |s|
  {
    if s != "" {
      var e, rest := EscapeChar(s[0], d), EncodeText(s[1..], d);
      var raw := pre + (e + rest);
      assert raw == (pre + e) + rest;
      DecodeEncoded(pre + e, s[1..], d);
      assert raw[|pre|] == e[0];
      if |e| == 2 {
        assert raw[|pre| + 1] == e[1];
        EscapeReads(raw, |pre| + 1, s[0], d);
      }
      assert s == [s[0]] + s[1..];
    }
  }

  lemma FieldDecodes(s: string, d: char)
    requires GoodDelimiter(d)
    ensures DecodeFrom(EncodeText(s, d), 0) == Some(s)
  {
    assert "" + EncodeText(s, d) == EncodeText(s, d);
    DecodeEncoded("", s, d);
  }

  /** What can follow a backslash at the start of an encoded value. */
  lemma FirstChars(s: string, d: char)
    requires GoodDelimiter(d)
    ensures var e := EncodeText(s, d);
      (|e| >= 1 && e[0] == '\\' ==> |e| >= 2) && (|e| >= 2 && e[0] == '\\' ==> e[1] != '.' && e[1] != 'N')
  {
    if s != "" {
      var e := EscapeChar(s[0], d);
      assert EncodeText(s, d)[0] == e[0];
      if |e| == 2 {
        assert EncodeText(s, d)[1] == e[1];
      }
    }
  }

  /** With the default NULL every row is unambiguous. */
  lemma DefaultNullIsUnambiguous(fields: seq<Field>, o: Options)
    requires GoodOptions(o) && o.nullText == "\\N"
    ensures Unambiguous(fields, o)
  {
    forall i | 0 <= i < |fields| && fields[i].Field?
      ensures EncodeField(fields[i], o) != o.nullText
    {
      FirstChars(fields[i].value, o.delimiter);
    }
  }

  /** A backslash at the end escapes nothing, and the field is refused. */
  lemma {:induction false} LoneBackslashRefused(pre: string, s: string, d: char)
    requires GoodDelimiter(d)
    ensures DecodeFrom(pre + (EncodeText(s, d) + "\\"), |pre|).None?
    decreases |s|
  {
    if s == "" {
      assert pre + ("" + "\\") == pre + "\\";
    } else {
      var e, rest := EscapeChar(s[0], d), EncodeText(s[1..], d) + "\\";
      var raw := pre + (e + rest);
      assert EncodeText(s, d) + "\\" == e + rest;
      assert raw == (pre + e) + rest;
      LoneBackslashRefused(pre + e, s[1..], d);
      assert raw[|pre|] == e[0];
      if |e| == 2 {
        assert raw[|pre| + 1] == e[1];
        EscapeReads(raw, |pre| + 1, s[0], d);
      }
    }
  }

  // ----------------------------------------------------------------------------- splitting a row

  /** Reading past an encoded value meets no delimiter. */
  lemma {:induction false} SkipValue(pre: string, s: string, post: string, d: char, start: nat)
    requires GoodDelimiter(d) && start <= |pre|
    ensures var record := pre + EncodeText(s, d) + post;
      SplitForward(record, d, start, |pre|, false) == SplitForward(record, d, start, |pre| + |EncodeText(s, d)|, false)
    decreases |s|
  {
    if s != "" {
      var e, rest := EscapeChar(s[0], d), EncodeText(s[1..], d);
      var record := pre + (e + rest) + post;
      assert record == (pre + e) + rest + post;
      SkipValue(pre + e, s[1..], post, d, start);
      assert record[|pre|] == e[0];
      if |e| == 2 {
        assert record[|pre| + 1] == e[1];
      }
    }
  }

  lemma {:induction false} SkipPlain(pre: string, s: string, post: string, d: char, start: nat)
    requires GoodDelimiter(d) && start <= |pre| && d !in s && '\\' !in s
    ensures var record := pre + s + post; SplitForward(record, d, start, |pre|, false) == SplitForward(record, d, start, |pre| + |s|, false)
    decreases |s|
  {
    if s != "" {
      var record := pre + s + post;
      assert record == (pre + [s[0]]) + s[1..] + post;
      SkipPlain(pre + [s[0]], s[1..], post, d, start);
      assert record[|pre|] == s[0];
    }
  }

  lemma SkipField(pre: string, f: Field, post: string, o: Options, start: nat)
    requires GoodOptions(o) && start <= |pre|
    ensures var record := pre + EncodeField(f, o) + post;
      SplitForward(record, o.delimiter, start, |pre|, false)
      == SplitForward(record, o.delimiter, start, |pre| + |EncodeField(f, o)|, false)
  {
    match f {
      case Field(s) => SkipValue(pre, s, post, o.delimiter, start);
      case NullField =>
        if o.nullText == "\\N" {
          var record := pre + o.nullText + post;
          assert record[|pre|] == '\\' && record[|pre| + 1] == 'N';
        } else {
          SkipPlain(pre, o.nullText, post, o.delimiter, start);
        }
    }
  }

  function Raws(fields: seq<Field>, o: Options): (r: seq<string>)
    ensures |r| == |fields|
  {
    if fields == [] then [] else [EncodeField(fields[0], o)] + Raws(fields[1..], o)
  }

  /** What is split off at the delimiter after a field. */
  lemma SplitOffFirst(pre: string, f: string, rest: string, d: char)
    requires d != '\\'
    ensures var record, i := pre + f + ([d] + rest), |pre| + |f|;
      SplitForward(record, d, |pre|, i, false) == [f] + SplitForward(record, d, i + 1, i + 1, false)
  {
    var record, i := pre + f + ([d] + rest), |pre| + |f|;
    assert record[i] == d && record[|pre|..i] == f;
  }

  lemma SplitOffLast(pre: string, f: string, d: char)
    ensures SplitForward(pre + f, d, |pre|, |pre| + |f|, false) == [f]
  {
    assert (pre + f)[|pre|..] == f;
  }

  lemma FirstSplits(pre: string, field: Field, rest: string, more: seq<string>, o: Options)
    requires GoodOptions(o)
    requires var before := pre + EncodeField(field, o) + [o.delimiter];
      SplitForward(before + rest, o.delimiter, |before|, |before|, false) == more
    ensures SplitForward(pre + (EncodeField(field, o) + ([o.delimiter] + rest)), o.delimiter, |pre|, |pre|, false)
      == [EncodeField(field, o)] + more
  {
    var f, d := EncodeField(field, o), o.delimiter;
    SkipField(pre, field, [d] + rest, o, |pre|);
    SplitOffFirst(pre, f, rest, d);
    Regroup(pre, f, d, rest);
  }

  lemma Regroup(pre: string, f: string, d: char, rest: string)
    ensures pre + (f + ([d] + rest)) == pre + f + ([d] + rest)
    ensures pre + (f + ([d] + rest)) == (pre + f + [d]) + rest
  {
  }

  lemma {:induction false} SplitEncoded(pre: string, fields: seq<Field>, o: Options)
    requires GoodOptions(o) && fields != []
    ensures SplitForward(pre + EncodeRow(fields, o), o.delimiter, |pre|, |pre|, false) == Raws(fields, o)
    decreases |fields|
  {
    var f := EncodeField(fields[0], o);
    if |fields| == 1 {
      assert pre + f + "" == pre + f;
      SkipField(pre, fields[0], "", o, |pre|);
      SplitOffLast(pre, f, o.delimiter);
    } else {
      SplitEncoded(pre + f + [o.delimiter], fields[1..], o);
      FirstSplits(pre, fields[0], EncodeRow(fields[1..], o), Raws(fields[1..], o), o);
    }
  }

  /** A field as it comes back. */
  function Seen(f: Field, o: Options): Field {
    if EncodeField(f, o) == o.nullText then NullField else f
  }

  lemma DecodeOne(f: Field, o: Options)
    requires GoodOptions(o)
    ensures f.Field? ==> DecodeFrom(EncodeField(f, o), 0) == Some(f.value)
  {
    if f.Field? {
      FieldDecodes(f.value, o.delimiter);
    }
  }

  function AllSeen(fields: seq<Field>, o: Options): (r: seq<Field>)
    ensures |r| == |fields|
    ensures forall i :: 0 <= i < |fields| ==> r[i] == Seen(fields[i], o)
  {
    if fields == [] then [] else AllSeen(fields[..|fields| - 1], o) + [Seen(fields[|fields| - 1], o)]
  }

  lemma {:induction false} DecodeRaws(fields: seq<Field>, o: Options)
    requires GoodOptions(o)
    ensures DecodeAll(Raws(fields, o), o) == Some(AllSeen(fields, o))
    decreases |fields|
  {
    if fields != [] {
      var init, last := fields[..|fields| - 1], fields[|fields| - 1];
      DecodeRaws(init, o);
      RawsSnoc(fields, o);
      DecodeOne(last, o);
    }
  }

  lemma AllSeenAsWritten(fields: seq<Field>, o: Options)
    ensures AllSeen(fields, o) == fields <==> Unambiguous(fields, o)
  {
    var seen := AllSeen(fields, o);
    if Unambiguous(fields, o) {
      forall i | 0 <= i < |fields|
        ensures seen[i] == fields[i]
      {
      }
    }
    if seen == fields {
      forall i | 0 <= i < |fields| && fields[i].Field?
        ensures EncodeField(fields[i], o) != o.nullText
      {
        assert seen[i] == fields[i];
      }
    }
  }

  lemma {:induction false} RawsSnoc(fields: seq<Field>, o: Options)
    requires fields != []
    ensures Raws(fields, o)[|fields| - 1] == EncodeField(fields[|fields| - 1], o)
    ensures Raws(fields, o)[..|fields| - 1] == Raws(fields[..|fields| - 1], o)
  {
    if |fields| > 1 {
      RawsSnoc(fields[1..], o);
      assert fields[1..][..|fields| - 2] == fields[..|fields| - 1][1..];
    }
  }

  /** Encoded fields are parsed back, the backward parity test and all, exactly when they are unambiguous. */
  lemma RowParses(fields: seq<Field>, o: Options)
    requires GoodOptions(o) && fields != []
    ensures TextFields(EncodeRow(fields, o), o) == Some(fields) <==> Unambiguous(fields, o)
  {
    RowDecodes(fields, o);
    AllSeenAsWritten(fields, o);
  }

  lemma RowDecodes(fields: seq<Field>, o: Options)
    requires GoodOptions(o) && fields != []
    ensures TextFields(EncodeRow(fields, o), o) == Some(AllSeen(fields, o))
  {
    var row := EncodeRow(fields, o);
    assert "" + row == row;
    SplitEncoded("", fields, o);
    ParityIsAutomaton(row, o.delimiter, 0, 0);
    DecodeRaws(fields, o);
  }

  // ------------------------------------------------------------------------------------ framing

  lemma {:induction false} ValueIsOneLine(s: string, d: char)
    requires GoodDelimiter(d)
    ensures OneLine(EncodeText(s, d))
  {
    if s != "" {
      ValueIsOneLine(s[1..], d);
    }
  }

  lemma {:induction false} RowIsOneLine(fields: seq<Field>, o: Options)
    requires GoodOptions(o) && fields != []
    ensures OneLine(EncodeRow(fields, o))
    decreases |fields|
  {
    if fields[0].Field? {
      ValueIsOneLine(fields[0].value, o.delimiter);
    }
    if |fields| > 1 {
      RowIsOneLine(fields[1..], o);
    }
  }

  lemma {:induction false} LineEndAfter(line: string, rest: string, from: nat)
    requires OneLine(line) && from <= |line|
    ensures LineEnd(line + ("\n" + rest), from) == |line| + 1
    decreases |line| - from
  {
    if from < |line| {
      LineEndAfter(line, rest, from + 1);
    }
  }

  lemma TerminatorTrims(line: string)
    requires OneLine(line)
    ensures TrimTerminator(line + "\n") == line
  {
    var record := line + "\n";
    assert record[..|record| - 1] == line;
  }

  /** No encoded row is the end-of-data marker. */
  lemma NotTheEnd(fields: seq<Field>, o: Options)
    requires GoodOptions(o) && fields != []
    ensures EncodeRow(fields, o) != "\\."
  {
    var row, f := EncodeRow(fields, o), EncodeField(fields[0], o);
    if fields[0].Field? {
      FirstChars(fields[0].value, o.delimiter);
    }
    assert |f| >= 1 ==> row[0] == f[0];
    assert |f| >= 2 ==> row[1] == f[1];
    assert |f| == 0 && |row| >= 1 ==> row[0] == o.delimiter;
  }

  /** The text round trip: an encoded row is cut exactly out of any longer buffer, is not the end marker,
      and is parsed back to its fields exactly when no value is written like NULL. */
  lemma TextRoundTrip(fields: seq<Field>, o: Options, rest: string)
    requires GoodOptions(o) && fields != []
    ensures var row := EncodeRow(fields, o);
      && RecordEnd(row + ("\n" + rest), o) == Scan(|row| + 1, false)
      && (row + ("\n" + rest))[..|row| + 1] == row + "\n"
      && TrimTerminator(row + "\n") == row && row != "\\."
      && (TextFields(row, o) == Some(fields) <==> Unambiguous(fields, o))
  {
    RowIsOneLine(fields, o);
    LineEndAfter(EncodeRow(fields, o), rest, 0);
    TerminatorTrims(EncodeRow(fields, o));
    NotTheEnd(fields, o);
    RowParses(fields, o);
  }
}
