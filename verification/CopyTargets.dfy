/** One key value, one Burrow: through SQL, text COPY, CSV COPY and binary COPY. */
module CopyTargets {
  import opened Text
  import opened Scalar
  import opened CopyRecords
  import opened Splitter
  import opened CopyStream
  import opened Analysis
  import CopyText
  import CopyCsv
  import CopyOutput

  // --------------------------------------------------------------------------- binary encoding

  function Put16(n: nat): (s: string)
    requires n < 0x1_0000
    ensures |s| == 2
  {
    [(n / 256) as char, (n % 256) as char]
  }

  function Put32(n: nat): (s: string)
    requires n < 0x1_0000_0000
    ensures |s| == 4
  {
    Put16(n / 0x1_0000) + Put16(n % 0x1_0000)
  }

  /** A field of the binary format: its length and its bytes, or the length -1 for NULL. */
  function EncodeValue(v: Option<string>): string
    requires v.Some? ==> |v.value| <= MaxRowBytes
  {
    match v case None => Put32(0xFFFF_FFFF) case Some(s) => Put32(|s|) + s
  }

  predicate Sized(values: seq<Option<string>>) {
    forall i :: 0 <= i < |values| ==> values[i].Some? ==> |values[i].value| <= MaxRowBytes
  }

  function EncodeValues(values: seq<Option<string>>): string
    requires Sized(values)
  {
    if values == [] then "" else EncodeValue(values[0]) + EncodeValues(values[1..])
  }

  function EncodeTuple(values: seq<Option<string>>): string
    requires Sized(values) && |values| < 0x8000
  {
    Put16(|values|) + EncodeValues(values)
  }

  lemma Got16(pre: string, n: nat, post: string)
    requires n < 0x1_0000
    ensures U16(pre + (Put16(n) + post), |pre|) == n
  {
    var s := pre + (Put16(n) + post);
    assert s[|pre|] == Put16(n)[0] && s[|pre| + 1] == Put16(n)[1];
  }

  lemma Got32(pre: string, n: nat, post: string)
    requires n < 0x1_0000_0000
    ensures U32(pre + (Put32(n) + post), |pre|) == n
  {
    var high, low := Put16(n / 0x1_0000), Put16(n % 0x1_0000);
    assert pre + (Put32(n) + post) == pre + (high + (low + post));
    Got16(pre, n / 0x1_0000, low + post);
    assert pre + (high + (low + post)) == (pre + high) + (low + post);
    Got16(pre + high, n % 0x1_0000, post);
  }

  lemma Regroup(pre: string, first: string, rest: string, post: string)
    ensures pre + ((first + rest) + post) == (pre + first) + (rest + post)
  {
  }

  /** One encoded field is read back, whatever follows. */
  lemma ValueReads(pre: string, v: Option<string>, tail: string)
    requires v.Some? ==> |pre| + 4 + |v.value| <= MaxRowBytes
    ensures var buffer := pre + (EncodeValue(v) + tail);
      && I32(buffer, |pre|) == (if v.None? then -1 else |v.value|)
      && (v.Some? ==> buffer[|pre| + 4..|pre| + 4 + |v.value|] == v.value)
  {
    match v {
      case None => Got32(pre, 0xFFFF_FFFF, tail);
      case Some(s) =>
        assert pre + ((Put32(|s|) + s) + tail) == pre + (Put32(|s|) + (s + tail));
        Got32(pre, |s|, s + tail);
        var buffer := pre + (Put32(|s|) + (s + tail));
        assert buffer[|pre| + 4..|pre| + 4 + |s|] == s;
    }
  }

  /** A field is scanned in front of those scanned after it. */
  lemma FirstScans(buffer: string, position: nat, next: nat, v: Option<string>, n: nat, rest: TupleScan)
    requires n > 0 && position + 4 <= |buffer| && I32(buffer, position) == (if v.None? then -1 else |v.value|)
    requires v.Some? ==> position + 4 + |v.value| <= |buffer| && position + 4 + |v.value| <= MaxRowBytes
    requires v.Some? ==> buffer[position + 4..position + 4 + |v.value|] == v.value
    requires next == position + 4 + (if v.None? then 0 else |v.value|) && ScanFields(buffer, n - 1, next) == rest
    ensures ScanFields(buffer, n, position) == Prefixed(v, rest)
  {
  }

  /** Encoded fields are scanned back out of any longer buffer. */
  lemma {:induction false} ValuesScan(buffer: string, pre: string, values: seq<Option<string>>, post: string)
    requires Sized(values) && |pre| + |EncodeValues(values)| <= MaxRowBytes
    requires buffer == pre + (EncodeValues(values) + post)
    ensures ScanFields(buffer, |values|, |pre|) == Fields(|pre| + |EncodeValues(values)|, values)
    decreases |values|
  {
    if values != [] {
      var first, rest := EncodeValue(values[0]), EncodeValues(values[1..]);
      SplitOff(buffer, pre, values[0], rest, post);
      ValuesScan(buffer, pre + first, values[1..], post);
      ValueAndRest(buffer, |pre|, values, |pre| + |first|, |pre| + |first| + |rest|);
    }
  }

  lemma ValueAndRest(buffer: string, position: nat, values: seq<Option<string>>, at: nat, end: nat)
    requires values != [] && position + 4 <= |buffer|
    requires I32(buffer, position) == (if values[0].None? then -1 else |values[0].value|)
    requires at == position + 4 + (if values[0].None? then 0 else |values[0].value|) <= |buffer|
    requires values[0].Some? ==> at <= MaxRowBytes && buffer[position + 4..at] == values[0].value
    requires ScanFields(buffer, |values| - 1, at) == Fields(end, values[1..])
    ensures ScanFields(buffer, |values|, position) == Fields(end, values)
  {
    FirstScans(buffer, position, at, values[0], |values|, Fields(end, values[1..]));
    assert values == [values[0]] + values[1..];
  }

  /** What is known of the first encoded field of a buffer. */
  lemma SplitOff(buffer: string, pre: string, v: Option<string>, rest: string, post: string)
    requires v.Some? ==> |pre| + 4 + |v.value| <= MaxRowBytes
    requires buffer == pre + ((EncodeValue(v) + rest) + post)
    ensures buffer == (pre + EncodeValue(v)) + (rest + post)
    ensures |EncodeValue(v)| == 4 + (if v.None? then 0 else |v.value|) && |pre| + |EncodeValue(v)| <= |buffer|
    ensures I32(buffer, |pre|) == (if v.None? then -1 else |v.value|)
    ensures v.Some? ==> buffer[|pre| + 4..|pre| + 4 + |v.value|] == v.value
  {
    var first := EncodeValue(v);
    Regroup(pre, first, rest, post);
    assert buffer == pre + (first + (rest + post));
    ValueReads(pre, v, rest + post);
  }

  /** A binary tuple is framed exactly and read back to its values. */
  lemma TupleRoundTrip(values: seq<Option<string>>, rest: string)
    requires Sized(values) && |values| < 0x8000 && |EncodeTuple(values)| <= MaxRowBytes
    ensures var buffer := EncodeTuple(values) + rest;
      I16(buffer, 0) == |values| && ScanFields(buffer, |values|, 2) == Fields(|EncodeTuple(values)|, values)
  {
    var count, body := Put16(|values|), EncodeValues(values);
    assert EncodeTuple(values) + rest == count + (body + rest);
    assert "" + (count + (body + rest)) == count + (body + rest);
    Got16("", |values|, body + rest);
    ValuesScan(EncodeTuple(values) + rest, count, values, rest);
  }

  // -------------------------------------------------------------------------- header and trailer

  /** A header as the binary format defines it: the signature, a flags field, and an extension behind its
      length. */
  function EncodeHeader(flags: nat, extension: string): string
    requires flags < 0x1_0000_0000 && |extension| <= MaxRowBytes
  {
    "PGCOPY\n\U{FF}\r\n\0" + (Put32(flags) + (Put32(|extension|) + extension))
  }

  /** Every header is recognised whole, whatever its flags and extension and whatever follows. */
  lemma HeaderReads(flags: nat, extension: string, rest: string)
    requires flags < 0x1_0000_0000 && |extension| <= MaxRowBytes
    ensures ScanHeader(EncodeHeader(flags, extension) + rest) == HeaderEnd(19 + |extension|)
    ensures |EncodeHeader(flags, extension)| == 19 + |extension|
  {
    var signature: string := "PGCOPY\n\U{FF}\r\n\0";
    var buffer := EncodeHeader(flags, extension) + rest;
    assert buffer == (signature + Put32(flags)) + (Put32(|extension|) + (extension + rest));
    assert buffer[..11] == signature;
    Got32(signature + Put32(flags), |extension|, extension + rest);
  }

  /** The length -1 in place of a field count is the trailer, which goes to every Burrow and ends the file. */
  lemma TrailerReads(plan: CopyStream.Plan, state: State, rest: string)
    requires plan.options.format == BinaryFormat && state.binaryHeader && !state.binaryTrailer
    ensures Next(plan, state, Put16(0xFFFF) + rest) == Emit(Chunk("", Put16(0xFFFF)), 2, state.(binaryTrailer := true))
    ensures rest != "" ==> Next(plan, state.(binaryTrailer := true), rest).Fail?
  {
    var buffer := Put16(0xFFFF) + rest;
    assert "" + (Put16(0xFFFF) + rest) == buffer;
    Got16("", 0xFFFF, rest);
    assert buffer[..2] == Put16(0xFFFF);
  }

  /** The parts of a file written by the format's rules. */
  function EncodedFile(flags: nat, extension: string, rows: seq<seq<Option<string>>>): seq<CopyOutput.Piece>
    requires flags < 0x1_0000_0000 && |extension| <= MaxRowBytes
    requires forall i :: 0 <= i < |rows| ==> Sized(rows[i]) && |rows[i]| < 0x8000
  {
    [CopyOutput.Header(EncodeHeader(flags, extension))]
    + seq(|rows|, i requires 0 <= i < |rows| => CopyOutput.Tuple(EncodeTuple(rows[i])))
    + [CopyOutput.Trailer(Put16(0xFFFF))]
  }

  /** They are a whole file to the output merge, which reads it back as these parts. */
  lemma EncodedFileReads(flags: nat, extension: string, rows: seq<seq<Option<string>>>)
    requires flags < 0x1_0000_0000 && |extension| <= MaxRowBytes
    requires forall i :: 0 <= i < |rows| ==> Sized(rows[i]) && |rows[i]| < 0x8000 && |EncodeTuple(rows[i])| <= MaxRowBytes
    ensures var pieces := EncodedFile(flags, extension, rows);
      && CopyOutput.WholeFile(pieces)
      && Drain(CopyOutput.Reader, CopyOutput.Unseen, Data(pieces, CopyOutput.PieceData))
         == Drained(pieces, "", CopyOutput.Seen(true, true), true)
  {
    var pieces := EncodedFile(flags, extension, rows);
    HeaderIsGood(flags, extension);
    TrailerIsGood();
    forall i | 0 < i < |pieces| - 1 ensures CopyOutput.IsTupleAt(pieces, i) {
      TupleIsGood(rows[i - 1]);
    }
    CopyOutput.WholeFileReads(pieces);
  }

  lemma HeaderIsGood(flags: nat, extension: string)
    requires flags < 0x1_0000_0000 && |extension| <= MaxRowBytes
    ensures CopyOutput.Good(CopyOutput.Header(EncodeHeader(flags, extension)))
  {
    HeaderReads(flags, extension, "");
    assert EncodeHeader(flags, extension) + "" == EncodeHeader(flags, extension);
  }

  lemma TrailerIsGood()
    ensures CopyOutput.Good(CopyOutput.Trailer(Put16(0xFFFF)))
  {
    Got16("", 0xFFFF, "");
    assert "" + (Put16(0xFFFF) + "") == Put16(0xFFFF);
  }

  lemma TupleIsGood(values: seq<Option<string>>)
    requires Sized(values) && |values| < 0x8000 && |EncodeTuple(values)| <= MaxRowBytes
    ensures CopyOutput.Good(CopyOutput.Tuple(EncodeTuple(values)))
  {
    TupleRoundTrip(values, "");
    assert EncodeTuple(values) + "" == EncodeTuple(values);
  }

  // --------------------------------------------------------------------------------- key texts

  /** The key columns of a delimited row hold these texts. */
  ghost predicate HoldsTexts(fields: seq<Field>, indexes: seq<nat>, texts: seq<string>) {
    |indexes| == |texts| && forall i :: 0 <= i < |indexes| ==>
      indexes[i] < |fields| && fields[indexes[i]] == Field(texts[i]) && ValidUtf8(texts[i])
  }

  /** The key texts of a row are found exactly when none is NULL and all are well-formed UTF-8. */
  lemma {:induction false} KeyTextsAre(fields: seq<Field>, indexes: seq<nat>, texts: seq<string>)
    requires |texts| == |indexes| && forall i :: 0 <= i < |indexes| ==> indexes[i] < |fields|
    ensures KeyTexts(fields, indexes) == Some(texts) <==> HoldsTexts(fields, indexes, texts)
  {
    if indexes != [] {
      KeyTextsAre(fields, indexes[..|indexes| - 1], texts[..|texts| - 1]);
      HoldsSnoc(fields, indexes, texts);
      assert texts == texts[..|texts| - 1] + [texts[|texts| - 1]];
    }
  }

  lemma HoldsSnoc(fields: seq<Field>, indexes: seq<nat>, texts: seq<string>)
    requires indexes != [] && |texts| == |indexes|
    ensures var last := |indexes| - 1;
      HoldsTexts(fields, indexes, texts) <==>
        HoldsTexts(fields, indexes[..last], texts[..last])
        && indexes[last] < |fields| && fields[indexes[last]] == Field(texts[last]) && ValidUtf8(texts[last])
  {
    var last := |indexes| - 1;
    forall i | 0 <= i < last
      ensures indexes[..last][i] == indexes[i] && texts[..last][i] == texts[i]
    {
    }
  }

  /** The key columns of a binary row hold these values. */
  ghost predicate HoldsValues(
      values: seq<Option<string>>, indexes: seq<nat>, key: seq<KeyValue>, families: seq<Family>) {
    |indexes| == |key| == |families| && forall i :: 0 <= i < |indexes| ==>
      indexes[i] < |values| && values[indexes[i]].Some? && SentAs(values[indexes[i]].value, key[i], families[i])
  }

  lemma SpellOneMore(texts: seq<string>, key: seq<KeyValue>, families: seq<Family>, text: string)
    requires |key| == |families| == |texts| + 1
    requires AllSpell(texts, key[..|texts|], families[..|texts|]) && Spells(text, key[|texts|], families[|texts|])
    ensures AllSpell(texts + [text], key, families)
  {
    forall i | 0 <= i < |key| ensures Spells((texts + [text])[i], key[i], families[i]) {
      if i < |texts| {
        assert Spells(texts[i], key[..|texts|][i], families[..|texts|][i]);
      }
    }
  }

  lemma {:induction false} BinaryKeysSpell(
      values: seq<Option<string>>, indexes: seq<nat>, key: seq<KeyValue>, families: seq<Family>)
    requires HoldsValues(values, indexes, key, families)
    ensures BinaryKeys(values, indexes, families).Some?
    ensures AllSpell(BinaryKeys(values, indexes, families).value, key, families)
  {
    if indexes != [] {
      var last := |indexes| - 1;
      BinaryKeysSpell(values, indexes[..last], key[..last], families[..last]);
      var bytes := values[indexes[last]].value;
      SendDecodes(bytes, key[last], families[last]);
      SpellOneMore(BinaryKeys(values, indexes[..last], families[..last]).value, key, families,
                   DecodeBinaryKey(bytes, families[last]).value);
    }
  }

  /** The key texts of a binary row are found exactly when no key column is NULL and all decode. */
  lemma {:induction false} BinaryKeysAre(values: seq<Option<string>>, indexes: seq<nat>, families: seq<Family>)
    requires |indexes| == |families| && forall i :: 0 <= i < |indexes| ==> indexes[i] < |values|
    ensures BinaryKeys(values, indexes, families).Some? <==>
      forall i :: 0 <= i < |indexes| ==>
        values[indexes[i]].Some? && DecodeKey(values[indexes[i]].value, families[i]).Some?
  {
    if indexes != [] {
      BinaryKeysAre(values, indexes[..|indexes| - 1], families[..|indexes| - 1]);
    }
  }

  // --------------------------------------------------------------------------------- one target

  /** The plan routes keys as SQL statements on the table are routed. */
  ghost predicate RoutesLike(plan: CopyStream.Plan, table: string, fleet: Fleet) {
    forall values :: plan.route(values) == TargetForKey(table, values, plan.keyFamilies, fleet)
  }

  /** The owner of a key, as COPY reports it: an empty name is no owner. */
  ghost function CopyOwner(table: string, key: seq<KeyValue>, families: seq<Family>, fleet: Fleet): Option<string>
    requires |key| == |families|
  {
    match OwnerOfKey(table, key, families, fleet) case None => None case Some(t) => if t == "" then None else Some(t)
  }

  lemma TextsRouted(plan: CopyStream.Plan, texts: seq<string>, key: seq<KeyValue>, table: string, fleet: Fleet)
    requires RoutesLike(plan, table, fleet) && AllSpell(texts, key, plan.keyFamilies)
    ensures Routed(plan, texts) == CopyOwner(table, key, plan.keyFamilies, fleet)
  {
    AnySpelling(table, texts, key, plan.keyFamilies, fleet);
  }

  /** What a routed row of so many bytes becomes. */
  function RowChunk(row: string, owner: Option<string>, state: State): Outcome<State, Chunk> {
    if owner.None? then Fail else Emit(Chunk(owner.value, row), |row|, state.(rows := state.rows + 1))
  }

  /** A row in text format, cut out of any longer buffer, goes to the owner of its key. */
  lemma TextRowTarget(
      plan: CopyStream.Plan, fields: seq<Field>, texts: seq<string>, key: seq<KeyValue>, table: string,
      fleet: Fleet, state: State, rest: string)
    requires CopyText.GoodOptions(plan.options) && CopyText.Unambiguous(fields, plan.options) && !state.headerPending
    requires fields != [] && |fields| == plan.columns && HoldsTexts(fields, plan.keyIndexes, texts)
    requires RoutesLike(plan, table, fleet) && AllSpell(texts, key, plan.keyFamilies)
    ensures var row := CopyText.EncodeRow(fields, plan.options);
      Next(plan, state, row + ("\n" + rest)) == RowChunk(row + "\n", CopyOwner(table, key, plan.keyFamilies, fleet), state)
  {
    CopyText.TextRoundTrip(fields, plan.options, rest);
    FieldsRouted(plan, CopyText.EncodeRow(fields, plan.options), fields, texts, key, table, fleet);
    RowRouted(plan, state, CopyText.EncodeRow(fields, plan.options), "\n", rest);
  }

  /** A record parsed to these fields goes to the owner of their key. */
  lemma FieldsRouted(
      plan: CopyStream.Plan, row: string, fields: seq<Field>, texts: seq<string>, key: seq<KeyValue>, table: string,
      fleet: Fleet)
    requires (if plan.options.format == CsvFormat then CsvFields(row, plan.options) else TextFields(row, plan.options)) == Some(fields)
    requires |fields| == plan.columns && HoldsTexts(fields, plan.keyIndexes, texts)
    requires RoutesLike(plan, table, fleet) && AllSpell(texts, key, plan.keyFamilies)
    ensures TargetForRecord(plan, row) == CopyOwner(table, key, plan.keyFamilies, fleet)
  {
    KeyTextsAre(fields, plan.keyIndexes, texts);
    TextsRouted(plan, texts, key, table, fleet);
  }

  /** A record cut out of a longer buffer becomes a chunk for its target. */
  lemma RowRouted(plan: CopyStream.Plan, state: State, row: string, terminator: string, rest: string)
    requires plan.options.format != BinaryFormat && !state.headerPending && terminator != ""
    requires RecordEnd(row + (terminator + rest), plan.options) == Scan(|row + terminator|, false)
    requires (row + (terminator + rest))[..|row + terminator|] == row + terminator && TrimTerminator(row + terminator) == row
    requires plan.options.format == TextFormat ==> row != "\\."
    ensures Next(plan, state, row + (terminator + rest)) == RowChunk(row + terminator, TargetForRecord(plan, row), state)
  {
  }

  /** So does one in CSV format, whichever of its fields are quoted and whatever line end it has. */
  lemma CsvRowTarget(
      plan: CopyStream.Plan, written: seq<string>, fields: seq<Field>, texts: seq<string>, key: seq<KeyValue>,
      table: string, fleet: Fleet, state: State, terminator: string, rest: string)
    requires CopyCsv.GoodOptions(plan.options) && CopyCsv.RowWrittenAs(written, fields, plan.options)
    requires CopyCsv.LineEnds(terminator) && !state.headerPending
    requires fields != [] && |fields| == plan.columns && HoldsTexts(fields, plan.keyIndexes, texts)
    requires RoutesLike(plan, table, fleet) && AllSpell(texts, key, plan.keyFamilies)
    ensures var row := CopyCsv.JoinRow(written, plan.options);
      Next(plan, state, row + (terminator + rest))
      == RowChunk(row + terminator, CopyOwner(table, key, plan.keyFamilies, fleet), state)
  {
    CopyCsv.CsvRoundTrip(written, fields, plan.options, terminator, rest);
    FieldsRouted(plan, CopyCsv.JoinRow(written, plan.options), fields, texts, key, table, fleet);
    RowRouted(plan, state, CopyCsv.JoinRow(written, plan.options), terminator, rest);
  }

  /** The first line of a CSV with a header goes to every Burrow, whatever it says. */
  lemma CsvHeaderToAll(
      plan: CopyStream.Plan, written: seq<string>, fields: seq<Field>, state: State, terminator: string, rest: string)
    requires CopyCsv.GoodOptions(plan.options) && CopyCsv.RowWrittenAs(written, fields, plan.options) && fields != []
    requires CopyCsv.LineEnds(terminator) && state.headerPending
    ensures var line := CopyCsv.JoinRow(written, plan.options) + terminator;
      Next(plan, state, CopyCsv.JoinRow(written, plan.options) + (terminator + rest))
      == Emit(Chunk("", line), |line|, state.(headerPending := false))
  {
    CopyCsv.CsvRoundTrip(written, fields, plan.options, terminator, rest);
  }

  /** A row of another width than the column list is refused, in every format. */
  lemma OtherWidthRefused(plan: CopyStream.Plan, fields: seq<Field>, written: seq<string>)
    requires fields != [] && |fields| != plan.columns
    ensures CopyText.GoodOptions(plan.options) ==> TargetForRecord(plan, CopyText.EncodeRow(fields, plan.options)).None?
    ensures CopyCsv.GoodOptions(plan.options) && CopyCsv.RowWrittenAs(written, fields, plan.options) ==>
      TargetForRecord(plan, CopyCsv.JoinRow(written, plan.options)).None?
  {
    if CopyText.GoodOptions(plan.options) {
      CopyText.RowDecodes(fields, plan.options);
    }
    if CopyCsv.GoodOptions(plan.options) && CopyCsv.RowWrittenAs(written, fields, plan.options) {
      CopyCsv.CsvRoundTrip(written, fields, plan.options, "\n", "");
    }
  }

  lemma OtherTupleRefused(plan: CopyStream.Plan, values: seq<Option<string>>, state: State, rest: string)
    requires Sized(values) && |values| < 0x8000 && |values| != plan.columns
    ensures TupleNext(plan, state, EncodeTuple(values) + rest).Fail?
  {
    var buffer := EncodeTuple(values) + rest;
    assert buffer == "" + (Put16(|values|) + (EncodeValues(values) + rest));
    Got16("", |values|, EncodeValues(values) + rest);
  }

  lemma TupleTarget(
      plan: CopyStream.Plan, values: seq<Option<string>>, key: seq<KeyValue>, table: string, fleet: Fleet)
    requires |values| == plan.columns && HoldsValues(values, plan.keyIndexes, key, plan.keyFamilies) && RoutesLike(plan, table, fleet)
    ensures TargetForTuple(plan, values) == CopyOwner(table, key, plan.keyFamilies, fleet)
  {
    BinaryKeysSpell(values, plan.keyIndexes, key, plan.keyFamilies);
    TextsRouted(plan, BinaryKeys(values, plan.keyIndexes, plan.keyFamilies).value, key, table, fleet);
  }

  /** And so does one in binary format, framed out of any longer buffer. */
  lemma BinaryRowTarget(
      plan: CopyStream.Plan, state: State, values: seq<Option<string>>, key: seq<KeyValue>, table: string,
      fleet: Fleet, rest: string)
    requires Sized(values) && |values| == plan.columns < 0x8000 && |EncodeTuple(values)| <= MaxRowBytes
    requires HoldsValues(values, plan.keyIndexes, key, plan.keyFamilies) && RoutesLike(plan, table, fleet)
    ensures TupleNext(plan, state, EncodeTuple(values) + rest)
      == RowChunk(EncodeTuple(values), CopyOwner(table, key, plan.keyFamilies, fleet), state)
  {
    TupleTarget(plan, values, key, table, fleet);
    TupleEmitted(plan, state, values, rest);
  }

  lemma TupleEmitted(plan: CopyStream.Plan, state: State, values: seq<Option<string>>, rest: string)
    requires Sized(values) && |values| == plan.columns < 0x8000 && |EncodeTuple(values)| <= MaxRowBytes
    ensures TupleNext(plan, state, EncodeTuple(values) + rest) == RowChunk(EncodeTuple(values), TargetForTuple(plan, values), state)
  {
    TupleRoundTrip(values, rest);
    assert (EncodeTuple(values) + rest)[..|EncodeTuple(values)|] == EncodeTuple(values);
  }
}
