/** Records of COPY text and CSV: where one ends, and the fields it holds. */
module CopyRecords {
  import opened Text

  datatype Format = TextFormat | CsvFormat | BinaryFormat

  /** The options a record parser needs. */
  datatype Options = Options(format: Format, delimiter: char, nullText: string, quote: char, escape: char)

  datatype Field = NullField | Field(value: string)

  // ----------------------------------------------------------------------------------- framing

  function LineEnd(data: string, from: nat := 0): (end: nat)
    requires from <= |data|
    ensures end == 0 || from < end <= |data|
    decreases |data| - from
  {
    if from == |data| then 0 else if data[from] == '\n' then from + 1 else LineEnd(data, from + 1)
  }

  datatype Scan = Scan(end: nat, quoted: bool)

  /** A quoted character that the next one turns into a literal. */
  predicate Escapes(data: string, i: nat, o: Options)
    requires i < |data|
  {
    data[i] == o.escape && i + 1 < |data| && (data[i + 1] == o.quote || data[i + 1] == o.escape)
  }

  /** The quote-aware scan for the end of a CSV record. */
  function CsvEnd(data: string, o: Options, i: nat, quoted: bool, fieldStart: bool): (r: Scan)
    requires i <= |data|
    ensures r.end == 0 || (i < r.end <= |data| && !r.quoted)
    decreases |data| - i
  {
    if i == |data| then Scan(0, quoted)
    else if quoted then
      if Escapes(data, i, o) then CsvEnd(data, o, i + 2, true, fieldStart)
      else CsvEnd(data, o, i + 1, data[i] != o.quote, fieldStart)
    else if fieldStart && data[i] == o.quote then CsvEnd(data, o, i + 1, true, false)
    else if data[i] == o.delimiter then CsvEnd(data, o, i + 1, false, true)
    else if data[i] == '\n' then Scan(i + 1, false)
    else CsvEnd(data, o, i + 1, false, fieldStart && data[i] == '\r')
  }

  function RecordEnd(data: string, o: Options): (r: Scan)
    ensures r.end <= |data|
  {
    if o.format == TextFormat then Scan(LineEnd(data), false) else CsvEnd(data, o, 0, false, true)
  }

  /** delimitedRecordEnd. */
  method DelimitedRecordEnd(data: string, o: Options) returns (end: nat, quoted: bool)
    ensures Scan(end, quoted) == RecordEnd(data, o)
  {
    if o.format == TextFormat {
      return LineEnd(data), false;
    }
    quoted := false;
    var fieldStart, index := true, 0;
    while index < |data|
      invariant index <= |data| && CsvEnd(data, o, index, quoted, fieldStart) == RecordEnd(data, o)
    {
      var character := data[index];
      if quoted {
        if character == o.escape && index + 1 < |data| && (data[index + 1] == o.quote || data[index + 1] == o.escape) {
          index := index + 2;
          continue;
        }
        if character == o.quote {
          quoted := false;
        }
      } else if fieldStart && character == o.quote {
        quoted, fieldStart := true, false;
      } else if character == o.delimiter {
        fieldStart := true;
      } else if character == '\n' {
        return index + 1, false;
      } else if character != '\r' {
        fieldStart := false;
      }
      index := index + 1;
    }
    return 0, quoted;
  }

  lemma {:induction false} LineEndStable(a: string, b: string, from: nat)
    requires from <= |a| && LineEnd(a, from) > 0
    ensures LineEnd(a + b, from) == LineEnd(a, from)
    decreases |a| - from
  {
    if from < |a| && a[from] != '\n' {
      LineEndStable(a, b, from + 1);
    }
  }

  lemma {:induction false} CsvEndStable(a: string, b: string, o: Options, i: nat, quoted: bool, fieldStart: bool)
    requires i <= |a| && CsvEnd(a, o, i, quoted, fieldStart).end > 0
    ensures CsvEnd(a + b, o, i, quoted, fieldStart) == CsvEnd(a, o, i, quoted, fieldStart)
    decreases |a| - i
  {
    if i < |a| {
      assert (a + b)[i] == a[i] && (i + 1 < |a| ==> (a + b)[i + 1] == a[i + 1]);
      if quoted {
        if Escapes(a, i, o) {
          CsvEndStable(a, b, o, i + 2, true, fieldStart);
        } else {
          assert i + 1 < |a|;
          CsvEndStable(a, b, o, i + 1, a[i] != o.quote, fieldStart);
        }
      } else if fieldStart && a[i] == o.quote {
        CsvEndStable(a, b, o, i + 1, true, false);
      } else if a[i] == o.delimiter {
        CsvEndStable(a, b, o, i + 1, false, true);
      } else if a[i] != '\n' {
        CsvEndStable(a, b, o, i + 1, false, fieldStart && a[i] == '\r');
      }
    }
  }

  /** A record end, once in the buffer, stays where it is. */
  lemma RecordEndStable(a: string, b: string, o: Options)
    requires RecordEnd(a, o).end > 0
    ensures RecordEnd(a + b, o) == RecordEnd(a, o)
  {
    if o.format == TextFormat {
      LineEndStable(a, b, 0);
    } else {
      CsvEndStable(a, b, o, 0, false, true);
    }
  }

  function TrimTerminator(record: string): string {
    if record != "" && record[|record| - 1] == '\n' then
      var line := record[..|record| - 1];
      if line != "" && line[|line| - 1] == '\r' then line[..|line| - 1] else line
    else
      record
  }

  // ------------------------------------------------------------------------------ text records

  /** How many backslashes stand right before i, looking back no further than start. */
  function Backslashes(record: string, start: nat, i: nat): nat
    requires start <= i <= |record|
    decreases i
  {
    if i > start && record[i - 1] == '\\' then 1 + Backslashes(record, start, i - 1) else 0
  }

  method CountBackslashes(record: string, start: nat, i: nat) returns (n: nat)
    requires start <= i <= |record|
    ensures n == Backslashes(record, start, i)
  {
    n := 0;
    var previous := i;
    while previous > start && record[previous - 1] == '\\'
      invariant start <= previous <= i && n + Backslashes(record, start, previous) == Backslashes(record, start, i)
    {
      previous := previous - 1;
      n := n + 1;
    }
  }

  /** The raw fields of a record from i on, the current one having started at start, by looking back at
      each delimiter. */
  function SplitBack(record: string, delimiter: char, start: nat, i: nat): seq<string>
    requires start <= i <= |record|
    decreases |record| - i
  {
    if i == |record| then [record[start..]]
    else if record[i] == delimiter && Backslashes(record, start, i) % 2 == 0 then
      [record[start..i]] + SplitBack(record, delimiter, i + 1, i + 1)
    else SplitBack(record, delimiter, start, i + 1)
  }

  /** The same, reading from left to right: a backslash takes the character after it out of play. */
  function SplitForward(record: string, delimiter: char, start: nat, i: nat, escaped: bool): seq<string>
    requires start <= i <= |record|
    decreases |record| - i
  {
    if i == |record| then [record[start..]]
    else if escaped then SplitForward(record, delimiter, start, i + 1, false)
    else if record[i] == '\\' then SplitForward(record, delimiter, start, i + 1, true)
    else if record[i] == delimiter then [record[start..i]] + SplitForward(record, delimiter, i + 1, i + 1, false)
    else SplitForward(record, delimiter, start, i + 1, false)
  }

  /** The backward parity test is the left-to-right escape automaton, for every delimiter but the
      backslash itself. */
  lemma {:induction false} ParityIsAutomaton(record: string, delimiter: char, start: nat, i: nat)
    requires start <= i <= |record| && delimiter != '\\'
    ensures SplitBack(record, delimiter, start, i)
      == SplitForward(record, delimiter, start, i, Backslashes(record, start, i) % 2 == 1)
    decreases |record| - i
  {
    if i < |record| {
      if record[i] == delimiter && Backslashes(record, start, i) % 2 == 0 {
        ParityIsAutomaton(record, delimiter, i + 1, i + 1);
      } else {
        ParityIsAutomaton(record, delimiter, start, i + 1);
      }
    }
  }

  lemma {:induction false} ForwardKeepsWhole(record: string, start: nat, i: nat, escaped: bool)
    requires start <= i <= |record|
    ensures SplitForward(record, '\\', start, i, escaped) == [record[start..]]
    decreases |record| - i
  {
    if i < |record| {
      ForwardKeepsWhole(record, start, i + 1, !escaped && record[i] == '\\');
    }
  }

  lemma {:induction false} BackSplits(record: string, i: nat)
    requires i <= |record| && forall k :: 0 <= k < i ==> record[k] != '\\'
    ensures |SplitBack(record, '\\', 0, i)| > 1 <==> exists k :: 0 <= k < |record| && record[k] == '\\'
    ensures (forall k :: 0 <= k < |record| ==> record[k] != '\\') ==> SplitBack(record, '\\', 0, i) == [record]
    decreases |record| - i
  {
    if i < |record| && record[i] == '\\' {
      SplitNonempty(record, '\\', i + 1, i + 1);
    } else if i < |record| {
      BackSplits(record, i + 1);
    }
  }

  /** With a backslash as the delimiter the two agree only on records without one. */
  lemma BackslashDelimiter(record: string)
    ensures SplitBack(record, '\\', 0, 0) == SplitForward(record, '\\', 0, 0, false)
      <==> forall k :: 0 <= k < |record| ==> record[k] != '\\'
  {
    ForwardKeepsWhole(record, 0, 0, false);
    BackSplits(record, 0);
  }

  lemma {:induction false} SplitNonempty(record: string, delimiter: char, start: nat, i: nat)
    requires start <= i <= |record|
    ensures |SplitBack(record, delimiter, start, i)| >= 1
    decreases |record| - i
  {
    if i < |record| {
      SplitNonempty(record, delimiter, if record[i] == delimiter && Backslashes(record, start, i) % 2 == 0 then i + 1 else start, i + 1);
    }
  }

  method SplitRecord(record: string, delimiter: char) returns (raw: seq<string>)
    ensures raw == SplitBack(record, delimiter, 0, 0)
  {
    raw := [];
    var start, index := 0, 0;
    while index < |record|
      invariant start <= index <= |record|
      invariant raw + SplitBack(record, delimiter, start, index) == SplitBack(record, delimiter, 0, 0)
    {
      if record[index] == delimiter {
        var backslashes := CountBackslashes(record, start, index);
        if backslashes % 2 == 0 {
          raw := raw + [record[start..index]];
          start := index + 1;
        }
      }
      index := index + 1;
    }
    raw := raw + [record[start..]];
  }

  // -------------------------------------------------------------------------- text field values

  predicate IsHex(c: char) {
    '0' <= c <= '9' || 'a' <= c <= 'f' || 'A' <= c <= 'F'
  }

  predicate IsOctal(c: char) {
    '0' <= c <= '7'
  }

  function HexDigit(c: char): nat
    requires IsHex(c)
  {
    if c <= '9' then c as int - '0' as int else if c <= 'F' then c as int - 'A' as int + 10 else c as int - 'a' as int + 10
  }

  /** A byte, or the largest one where the digits say more. */
  function ByteOf(n: nat): char {
    if n < 256 then n as char else 255 as char
  }

  datatype Escape = Escape(value: char, length: nat)

  /** The character a backslash sequence stands for; i is the position after the backslash. */
  function EscapeAt(raw: string, i: nat): (e: Escape)
    requires i < |raw|
    ensures 0 < e.length && i + e.length <= |raw|
  {
    var c := raw[i];
    if c == 'b' then Escape('\U{08}', 1)
    else if c == 'f' then Escape('\U{0C}', 1)
    else if c == 'n' then Escape('\n', 1)
    else if c == 'r' then Escape('\r', 1)
    else if c == 't' then Escape('\t', 1)
    else if c == 'v' then Escape('\U{0B}', 1)
    else if c == 'x' then HexEscape(raw, i)
    else if IsOctal(c) then OctalEscape(raw, i)
    else Escape(c, 1)
  }

  function HexEscape(raw: string, i: nat): (e: Escape)
    requires i < |raw|
    ensures 0 < e.length && i + e.length <= |raw|
  {
    if i + 1 >= |raw| || !IsHex(raw[i + 1]) then Escape(raw[i], 1)
    else if i + 2 >= |raw| || !IsHex(raw[i + 2]) then Escape(ByteOf(HexDigit(raw[i + 1])), 2)
    else Escape(ByteOf(16 * HexDigit(raw[i + 1]) + HexDigit(raw[i + 2])), 3)
  }

  function OctalEscape(raw: string, i: nat): (e: Escape)
    requires i < |raw| && IsOctal(raw[i])
    ensures 0 < e.length && i + e.length <= |raw|
  {
    if i + 1 >= |raw| || !IsOctal(raw[i + 1]) then Escape(ByteOf(HexDigit(raw[i])), 1)
    else if i + 2 >= |raw| || !IsOctal(raw[i + 2]) then Escape(ByteOf(8 * HexDigit(raw[i]) + HexDigit(raw[i + 1])), 2)
    else Escape(ByteOf(64 * HexDigit(raw[i]) + 8 * HexDigit(raw[i + 1]) + HexDigit(raw[i + 2])), 3)
  }

  function Prepend(start: string, rest: Option<string>): Option<string> {
    match rest case None => None case Some(s) => Some(start + s)
  }

  lemma PrependBoth(start: string, c: char, rest: Option<string>)
    ensures Prepend(start, Prepend([c], rest)) == Prepend(start + [c], rest)
    ensures Prepend("", rest) == rest
  {
    if rest.Some? {
      assert start + ([c] + rest.value) == (start + [c]) + rest.value;
      assert "" + rest.value == rest.value;
    }
  }

  function DecodeFrom(raw: string, i: nat): Option<string>
    requires i <= |raw|
    decreases |raw| - i
  {
    if i == |raw| then Some("")
    else if raw[i] != '\\' then
      Prepend([raw[i]], DecodeFrom(raw, i + 1))
    else if i + 1 == |raw| then None
    else
      var e := EscapeAt(raw, i + 1);
      Prepend([e.value], DecodeFrom(raw, i + 1 + e.length))
  }

  /** decodeTextField. */
  method DecodeTextField(raw: string) returns (value: Option<string>)
    ensures value == DecodeFrom(raw, 0)
  {
    var decoded, index := "", 0;
    PrependBoth("", ' ', DecodeFrom(raw, 0));
    while index < |raw|
      invariant index <= |raw|
      invariant DecodeFrom(raw, 0) == Prepend(decoded, DecodeFrom(raw, index))
    {
      if raw[index] != '\\' {
        PrependBoth(decoded, raw[index], DecodeFrom(raw, index + 1));
        decoded := decoded + [raw[index]];
        index := index + 1;
      } else if index + 1 == |raw| {
        return None;
      } else {
        var e := EscapeAt(raw, index + 1);
        PrependBoth(decoded, e.value, DecodeFrom(raw, index + 1 + e.length));
        decoded := decoded + [e.value];
        index := index + 1 + e.length;
      }
    }
    assert decoded + "" == decoded;
    return Some(decoded);
  }

  /** Fields of raw texts: NULL, decoded, or none at all if one is malformed. */
  function DecodeAll(raws: seq<string>, o: Options): (r: Option<seq<Field>>)
    ensures r.Some? ==> |r.value| == |raws|
  {
    if raws == [] then Some([]) else
      match DecodeAll(raws[..|raws| - 1], o)
      case None => None
      case Some(fields) =>
        var raw := raws[|raws| - 1];
        if raw == o.nullText then Some(fields + [NullField]) else
          match DecodeFrom(raw, 0) case None => None case Some(value) => Some(fields + [Field(value)])
  }

  function TextFields(record: string, o: Options): Option<seq<Field>> {
    DecodeAll(SplitBack(record, o.delimiter, 0, 0), o)
  }

  /** parseTextRecord. */
  method ParseTextRecord(record: string, o: Options) returns (fields: Option<seq<Field>>)
    ensures fields == TextFields(record, o)
  {
    var raws := SplitRecord(record, o.delimiter);
    var sofar, i := [], 0;
    while i < |raws|
      invariant i <= |raws| && DecodeAll(raws[..i], o) == Some(sofar)
    {
      assert raws[..i + 1][..i] == raws[..i];
      if raws[i] == o.nullText {
        sofar := sofar + [NullField];
      } else {
        var value := DecodeTextField(raws[i]);
        if value.None? {
          DecodeStops(raws, o, i + 1);
          return None;
        }
        sofar := sofar + [Field(value.value)];
      }
      i := i + 1;
    }
    assert raws[..i] == raws;
    return Some(sofar);
  }

  lemma {:induction false} DecodeStops(raws: seq<string>, o: Options, n: nat)
    requires n <= |raws| && DecodeAll(raws[..n], o).None?
    ensures DecodeAll(raws, o).None?
    decreases |raws| - n
  {
    if n < |raws| {
      assert raws[..n + 1][..n] == raws[..n];
      DecodeStops(raws, o, n + 1);
    } else {
      assert raws[..n] == raws;
    }
  }

  // ------------------------------------------------------------------------------- CSV records

  /** A parsed part and where it ends. */
  datatype Part<T> = Part(value: T, end: nat)

  function Extend(c: char, rest: Option<Part<string>>): Option<Part<string>> {
    match rest case None => None case Some(p) => Some(Part([c] + p.value, p.end))
  }

  /** The rest of a quoted field, from i on, up to and past its closing quote. */
  function QuotedFrom(record: string, o: Options, i: nat): (r: Option<Part<string>>)
    requires i <= |record|
    ensures r.Some? ==> i < r.value.end <= |record|
    decreases |record| - i
  {
    if i == |record| then None
    else if Escapes(record, i, o) then Extend(record[i + 1], QuotedFrom(record, o, i + 2))
    else if record[i] == o.quote then Some(Part("", i + 1))
    else Extend(record[i], QuotedFrom(record, o, i + 1))
  }

  /** Where a field without quotes ends; None if a quote turns up in it. */
  function PlainEnd(record: string, o: Options, i: nat): (r: Option<nat>)
    requires i <= |record|
    ensures r.Some? ==> i <= r.value <= |record| && (r.value < |record| ==> record[r.value] == o.delimiter)
    decreases |record| - i
  {
    if i == |record| || record[i] == o.delimiter then Some(i)
    else if record[i] == o.quote then None
    else PlainEnd(record, o, i + 1)
  }

  function Plain(value: string, o: Options): Field {
    if value == o.nullText then NullField else Field(value)
  }

  function FieldAt(record: string, o: Options, i: nat): (r: Option<Part<Field>>)
    requires i <= |record|
    ensures r.Some? ==> i <= r.value.end <= |record| && (r.value.end < |record| ==> record[r.value.end] == o.delimiter)
  {
    if i < |record| && record[i] == o.quote then
      match QuotedFrom(record, o, i + 1)
      case None => None
      case Some(p) =>
        if p.end < |record| && record[p.end] != o.delimiter then None else Some(Part(Field(p.value), p.end))
    else
      match PlainEnd(record, o, i) case None => None case Some(end) => Some(Part(Plain(record[i..end], o), end))
  }

  function Follow(field: Field, rest: Option<seq<Field>>): Option<seq<Field>> {
    match rest case None => None case Some(fields) => Some([field] + fields)
  }

  function CsvFieldsFrom(record: string, o: Options, i: nat): Option<seq<Field>>
    requires i <= |record|
    decreases |record| - i
  {
    match FieldAt(record, o, i)
    case None => None
    case Some(p) =>
      if p.end == |record| then Some([p.value])
      else if p.end + 1 == |record| then Some([p.value, if o.nullText == "" then NullField else Field("")])
      else Follow(p.value, CsvFieldsFrom(record, o, p.end + 1))
  }

  function CsvFields(record: string, o: Options): Option<seq<Field>> {
    CsvFieldsFrom(record, o, 0)
  }

  function PutBefore(value: string, rest: Option<Part<string>>): Option<Part<string>> {
    match rest case None => None case Some(p) => Some(Part(value + p.value, p.end))
  }

  lemma PutBeforeExtend(value: string, c: char, rest: Option<Part<string>>)
    ensures PutBefore(value, Extend(c, rest)) == PutBefore(value + [c], rest)
    ensures PutBefore("", rest) == rest
  {
    if rest.Some? {
      assert value + ([c] + rest.value.value) == (value + [c]) + rest.value.value;
      assert "" + rest.value.value == rest.value.value;
    }
  }

  method ReadQuoted(record: string, o: Options, start: nat) returns (r: Option<Part<string>>)
    requires start <= |record|
    ensures r == QuotedFrom(record, o, start)
  {
    var value, position := "", start;
    PutBeforeExtend("", ' ', QuotedFrom(record, o, start));
    while position < |record|
      invariant start <= position <= |record|
      invariant PutBefore(value, QuotedFrom(record, o, position)) == QuotedFrom(record, o, start)
    {
      var character := record[position];
      if character == o.escape && position + 1 < |record| && (record[position + 1] == o.quote || record[position + 1] == o.escape) {
        PutBeforeExtend(value, record[position + 1], QuotedFrom(record, o, position + 2));
        value := value + [record[position + 1]];
        position := position + 2;
        continue;
      }
      if character == o.quote {
        assert value + "" == value;
        return Some(Part(value, position + 1));
      }
      PutBeforeExtend(value, character, QuotedFrom(record, o, position + 1));
      value := value + [character];
      position := position + 1;
    }
    return None;
  }

  method ReadPlain(record: string, o: Options, start: nat) returns (end: Option<nat>)
    requires start <= |record|
    ensures end == PlainEnd(record, o, start)
  {
    var position := start;
    while position < |record| && record[position] != o.delimiter
      invariant start <= position <= |record| && PlainEnd(record, o, position) == PlainEnd(record, o, start)
    {
      if record[position] == o.quote {
        return None;
      }
      position := position + 1;
    }
    return Some(position);
  }

  method ReadField(record: string, o: Options, start: nat) returns (r: Option<Part<Field>>)
    requires start <= |record|
    ensures r == FieldAt(record, o, start)
  {
    if start < |record| && record[start] == o.quote {
      var quoted := ReadQuoted(record, o, start + 1);
      if quoted.None? || (quoted.value.end < |record| && record[quoted.value.end] != o.delimiter) {
        return None;
      }
      return Some(Part(Field(quoted.value.value), quoted.value.end));
    }
    var end := ReadPlain(record, o, start);
    if end.None? {
      return None;
    }
    return Some(Part(Plain(record[start..end.value], o), end.value));
  }

  function FieldsBefore(fields: seq<Field>, rest: Option<seq<Field>>): Option<seq<Field>> {
    match rest case None => None case Some(more) => Some(fields + more)
  }

  lemma FieldsBeforeFollow(fields: seq<Field>, field: Field, rest: Option<seq<Field>>)
    ensures FieldsBefore(fields, Follow(field, rest)) == FieldsBefore(fields + [field], rest)
    ensures FieldsBefore([], rest) == rest
  {
    if rest.Some? {
      assert fields + ([field] + rest.value) == (fields + [field]) + rest.value;
      assert [] + rest.value == rest.value;
    }
  }

  /** parseCSVRecord. */
  method ParseCsvRecord(record: string, o: Options) returns (r: Option<seq<Field>>)
    ensures r == CsvFields(record, o)
  {
    var fields, position := [], 0;
    FieldsBeforeFollow([], NullField, CsvFieldsFrom(record, o, 0));
    while true
      invariant position <= |record|
      invariant FieldsBefore(fields, CsvFieldsFrom(record, o, position)) == CsvFields(record, o)
      decreases |record| - position
    {
      var next := ReadField(record, o, position);
      if next.None? {
        return None;
      }
      if next.value.end == |record| {
        return Some(fields + [next.value.value]);
      }
      if next.value.end + 1 == |record| {
        return Some(fields + [next.value.value, if o.nullText == "" then NullField else Field("")]);
      }
      FieldsBeforeFollow(fields, next.value.value, CsvFieldsFrom(record, o, next.value.end + 1));
      fields := fields + [next.value.value];
      position := next.value.end + 1;
    }
  }
}
