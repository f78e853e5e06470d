/** The COPY FROM stream: whole records out of arbitrarily cut input, each to the Burrow that owns it. */
module CopyStream {
  import opened Text
  import opened Scalar
  import opened CopyRecords
  import opened Splitter

  const MaxRowBytes := 16 * 1024 * 1024

  /** columns is the length of the COPY column list, keyIndexes the positions of the key columns in it;
      route resolves a key tuple to its owner. */
  datatype StreamPlan = StreamPlan(
    options: Options, columns: nat, keyIndexes: seq<nat>, keyFamilies: seq<Family>, header: bool,
    route: seq<string> -> Option<string>)

  predicate ValidPlan(p: StreamPlan) {
    |p.keyIndexes| == |p.keyFamilies| && forall i :: 0 <= i < |p.keyIndexes| ==> p.keyIndexes[i] < p.columns
  }

  type Plan = p: StreamPlan | ValidPlan(p)
    witness StreamPlan(Options(TextFormat, '\t', "\\N", '"', '"'), 0, [], [], false, values => None)

  /** An empty target stands for every Burrow of the COPY. */
  datatype Chunk = Chunk(target: string, data: string)

  datatype State = State(headerPending: bool, binaryHeader: bool, binaryTrailer: bool, rows: nat)

  function Start(plan: Plan): State {
    State(plan.header, false, false, 0)
  }

  // --------------------------------------------------------------------------- delimited records

  /** The texts of the key columns, if none is NULL or ill-formed. */
  function KeyTexts(fields: seq<Field>, indexes: seq<nat>): Option<seq<string>>
    requires forall i :: 0 <= i < |indexes| ==> indexes[i] < |fields|
  {
    if indexes == [] then Some([]) else
      var field := fields[indexes[|indexes| - 1]];
      match KeyTexts(fields, indexes[..|indexes| - 1])
      case None => None
      case Some(before) =>
        if field.NullField? || !ValidUtf8(field.value) then None else Some(before + [field.value])
  }

  function Routed(plan: Plan, values: seq<string>): Option<string> {
    match plan.route(values) case None => None case Some(target) => if target == "" then None else Some(target)
  }

  /** targetForRecord. */
  function TargetForRecord(plan: Plan, record: string): Option<string> {
    var fields := if plan.options.format == CsvFormat then CsvFields(record, plan.options) else TextFields(record, plan.options);
    if fields.None? || |fields.value| != plan.columns then None else
      match KeyTexts(fields.value, plan.keyIndexes) case None => None case Some(values) => Routed(plan, values)
  }

  /** What one whole record becomes. */
  function RecordChunk(plan: Plan, state: State, record: string): Outcome<State, Chunk> {
    var trimmed := TrimTerminator(record);
    if state.headerPending then Emit(Chunk("", record), |record|, state.(headerPending := false))
    else if plan.options.format == TextFormat && trimmed == "\\." then Emit(Chunk("", record), |record|, state)
    else
      match TargetForRecord(plan, trimmed)
      case None => Fail
      case Some(target) => Emit(Chunk(target, record), |record|, state.(rows := state.rows + 1))
  }

  function DelimitedNext(plan: Plan, state: State, buffer: string): Outcome<State, Chunk> {
    var end := RecordEnd(buffer, plan.options).end;
    if end == 0 then More else RecordChunk(plan, state, buffer[..end])
  }

  // ------------------------------------------------------------------------------ binary tuples

  function U16(s: string, i: nat): nat
    requires i + 2 <= |s|
  {
    256 * (s[i] as int) + s[i + 1] as int
  }

  function I16(s: string, i: nat): int
    requires i + 2 <= |s|
  {
    if U16(s, i) >= 0x8000 then U16(s, i) - 0x1_0000 else U16(s, i)
  }

  function U32(s: string, i: nat): nat
    requires i + 4 <= |s|
  {
    65536 * U16(s, i) + U16(s, i + 2)
  }

  function I32(s: string, i: nat): int
    requires i + 4 <= |s|
  {
    if U32(s, i) >= 0x8000_0000 then U32(s, i) - 0x1_0000_0000 else U32(s, i)
  }

  const Signature: string := "PGCOPY\n\U{FF}\r\n\0"

  /** The fields of a tuple: too few bytes, an error, or where they end and what they hold. */
  datatype TupleScan = Incomplete | Bad | Fields(end: nat, values: seq<Option<string>>)

  function Prefixed(value: Option<string>, scan: TupleScan): TupleScan {
    match scan case Fields(end, values) => Fields(end, [value] + values) case _ => scan
  }

  /** The n fields that start at a position. */
  function ScanFields(buffer: string, n: nat, position: nat): (r: TupleScan)
    requires position <= |buffer|
    ensures r.Fields? ==> position <= r.end <= |buffer| && |r.values| == n
  {
    if n == 0 then Fields(position, [])
    else if |buffer| < position + 4 then Incomplete
    else
      var length, start := I32(buffer, position), position + 4;
      if length == -1 then Prefixed(None, ScanFields(buffer, n - 1, start))
      else if length < 0 || length > MaxRowBytes || start + length > MaxRowBytes then Bad
      else if |buffer| < start + length then Incomplete
      else Prefixed(Some(buffer[start..start + length]), ScanFields(buffer, n - 1, start + length))
  }

  /** The first of n fields is NULL. */
  lemma NullFirst(buffer: string, n: nat, position: nat)
    requires n > 0 && position + 4 <= |buffer| && I32(buffer, position) == -1
    ensures ScanFields(buffer, n, position) == Prefixed(None, ScanFields(buffer, n - 1, position + 4))
  {
  }

  /** The first of n fields has so many bytes. */
  lemma ValueFirst(buffer: string, n: nat, position: nat, length: nat)
    requires n > 0 && position + 4 <= |buffer| && I32(buffer, position) == length
    requires position + 4 + length <= MaxRowBytes && position + 4 + length <= |buffer|
    ensures ScanFields(buffer, n, position)
      == Prefixed(Some(buffer[position + 4..position + 4 + length]), ScanFields(buffer, n - 1, position + 4 + length))
  {
  }

  datatype HeaderScan = HeaderIncomplete | HeaderBad | HeaderEnd(length: nat)

  function ScanHeader(buffer: string): (r: HeaderScan)
    ensures r.HeaderEnd? ==> 19 <= r.length <= |buffer|
  {
    if |buffer| < 19 then HeaderIncomplete
    else if buffer[..11] != Signature then HeaderBad
    else if U32(buffer, 15) > MaxRowBytes then HeaderBad
    else if |buffer| < 19 + U32(buffer, 15) then HeaderIncomplete
    else HeaderEnd(19 + U32(buffer, 15))
  }

  function DecodeKey(value: string, family: Family): Option<string> {
    if IsBytes(value) then DecodeBinaryKey(value, family) else None
  }

  function BinaryKeys(values: seq<Option<string>>, indexes: seq<nat>, families: seq<Family>): Option<seq<string>>
    requires |indexes| == |families| && forall i :: 0 <= i < |indexes| ==> indexes[i] < |values|
  {
    if indexes == [] then Some([]) else
      var last := |indexes| - 1;
      match BinaryKeys(values, indexes[..last], families[..last])
      case None => None
      case Some(before) =>
        if values[indexes[last]].None? then None else
          match DecodeKey(values[indexes[last]].value, families[last])
          case None => None
          case Some(text) => Some(before + [text])
  }

  function TargetForTuple(plan: Plan, values: seq<Option<string>>): Option<string>
    requires |values| == plan.columns
  {
    match BinaryKeys(values, plan.keyIndexes, plan.keyFamilies) case None => None case Some(keys) => Routed(plan, keys)
  }

  function TupleNext(plan: Plan, state: State, buffer: string): Outcome<State, Chunk> {
    if |buffer| < 2 then More
    else if I16(buffer, 0) == -1 then Emit(Chunk("", buffer[..2]), 2, state.(binaryTrailer := true))
    else if I16(buffer, 0) != plan.columns then Fail
    else
      match ScanFields(buffer, plan.columns, 2)
      case Incomplete => More
      case Bad => Fail
      case Fields(end, values) =>
        match TargetForTuple(plan, values)
        case None => Fail
        case Some(target) => Emit(Chunk(target, buffer[..end]), end, state.(rows := state.rows + 1))
  }

  function BinaryNext(plan: Plan, state: State, buffer: string): Outcome<State, Chunk> {
    if !state.binaryHeader then
      match ScanHeader(buffer)
      case HeaderIncomplete => More
      case HeaderBad => Fail
      case HeaderEnd(length) => Emit(Chunk("", buffer[..length]), length, state.(binaryHeader := true))
    else if state.binaryTrailer then
      if buffer == "" then More else Fail
    else
      TupleNext(plan, state, buffer)
  }

  // ------------------------------------------------------------------------------- one machine

  function Next(plan: Plan, state: State, buffer: string): Outcome<State, Chunk> {
    if plan.options.format == BinaryFormat then BinaryNext(plan, state, buffer) else DelimitedNext(plan, state, buffer)
  }

  function Machine(plan: Plan): (State, string) -> Outcome<State, Chunk> {
    (state, buffer) => Next(plan, state, buffer)
  }

  lemma SameStart(a: string, b: string, i: nat, j: nat)
    requires i + 4 <= |a|
    ensures I32(a + b, i) == I32(a, i)
    ensures i + 4 <= j <= |a| ==> (a + b)[i + 4..j] == a[i + 4..j]
  {
  }

  lemma {:induction false} ScanFieldsStable(a: string, b: string, n: nat, position: nat)
    requires position <= |a| && !ScanFields(a, n, position).Incomplete?
    ensures ScanFields(a + b, n, position) == ScanFields(a, n, position)
    decreases n
  {
    if n > 0 {
      var length, start := I32(a, position), position + 4;
      if length == -1 {
        SameStart(a, b, position, start);
        NullFirst(a, n, position);
        NullFirst(a + b, n, position);
        ScanFieldsStable(a, b, n - 1, start);
      } else if !(length < 0 || start + length > MaxRowBytes) {
        SameStart(a, b, position, start + length);
        ValueFirst(a, n, position, length);
        ValueFirst(a + b, n, position, length);
        ScanFieldsStable(a, b, n - 1, start + length);
      } else {
        SameStart(a, b, position, start);
      }
    }
  }

  lemma ScanHeaderStable(a: string, b: string)
    requires !ScanHeader(a).HeaderIncomplete?
    ensures ScanHeader(a + b) == ScanHeader(a)
  {
    assert (a + b)[..11] == a[..11];
    assert U32(a + b, 15) == U32(a, 15);
  }

  lemma TupleNextStable(plan: Plan, state: State, a: string, b: string)
    requires !TupleNext(plan, state, a).More?
    ensures TupleNext(plan, state, a + b) == TupleNext(plan, state, a)
  {
    assert U16(a + b, 0) == U16(a, 0);
    if I16(a, 0) == -1 {
      assert (a + b)[..2] == a[..2];
    } else if I16(a, 0) == plan.columns {
      ScanFieldsStable(a, b, plan.columns, 2);
      var scan := ScanFields(a, plan.columns, 2);
      if scan.Fields? {
        assert (a + b)[..scan.end] == a[..scan.end];
      }
    }
  }

  lemma NextStable(plan: Plan, state: State, a: string, b: string)
    requires !Next(plan, state, a).More?
    ensures Next(plan, state, a + b) == Next(plan, state, a)
  {
    if plan.options.format != BinaryFormat {
      RecordEndStable(a, b, plan.options);
      var end := RecordEnd(a, plan.options).end;
      assert (a + b)[..end] == a[..end];
    } else if !state.binaryHeader {
      ScanHeaderStable(a, b);
      var scan := ScanHeader(a);
      if scan.HeaderEnd? {
        assert (a + b)[..scan.length] == a[..scan.length];
      }
    } else if !state.binaryTrailer {
      TupleNextStable(plan, state, a, b);
    }
  }

  lemma NextConserves(plan: Plan, state: State, a: string)
    requires Next(plan, state, a).Emit?
    ensures var e := Next(plan, state, a); 0 < e.n <= |a| && e.chunk.data == a[..e.n]
  {
    if plan.options.format != BinaryFormat {
      var end := RecordEnd(a, plan.options).end;
      assert |a[..end]| == end;
    }
  }

  /** The three formats are stable, always make progress and conserve their input. */
  lemma MachineSound(plan: Plan)
    ensures Stable(Machine(plan)) && Progress(Machine(plan)) && Conserves(Machine(plan), (c: Chunk) => c.data)
    ensures Machine(plan)(Start(plan), "").More?
  {
    forall state, a, b | !Machine(plan)(state, a).More? ensures Machine(plan)(state, a + b) == Machine(plan)(state, a) {
      NextStable(plan, state, a, b);
    }
    forall state, a | Machine(plan)(state, a).Emit?
      ensures 0 < Machine(plan)(state, a).n <= |a| && Machine(plan)(state, a).chunk.data == a[..Machine(plan)(state, a).n]
    {
      NextConserves(plan, state, a);
    }
  }

  /** The bytes of chunks, in order. */
  function Sent(chunks: seq<Chunk>): string {
    Data(chunks, (c: Chunk) => c.data)
  }

  /** Every way of cutting the input into successful writes gives the chunks, targets, row count and rest
      of one write of all of it, and loses no byte. */
  lemma WritesAreCutIndependent(plan: Plan, pieces: seq<string>)
    requires Written(Machine(plan), Start(plan), pieces, MaxRowBytes).ok
    ensures var w := Written(Machine(plan), Start(plan), pieces, MaxRowBytes);
      && w == Written(Machine(plan), Start(plan), [Bytes(pieces)], MaxRowBytes)
      && Sent(w.chunks) + w.rest == Bytes(pieces)
  {
    MachineSound(plan);
    CutIndependent(Machine(plan), Start(plan), pieces, MaxRowBytes);
    OneWrite(Machine(plan), Start(plan), pieces, MaxRowBytes);
    NothingLost(Machine(plan), (c: Chunk) => c.data, Start(plan), Bytes(pieces));
  }

  // ------------------------------------------------------------------------------ end of input

  /** A last record without its terminator. */
  function LastRecord(plan: Plan, state: State, rest: string): Drained<State, Chunk> {
    if rest == "" then Drained([], "", state, true)
    else if RecordEnd(rest, plan.options).quoted then Drained([], rest, state, false)
    else
      match RecordChunk(plan, state, rest)
      case Emit(chunk, _, state') => Drained([chunk], "", state', true)
      case _ => Drained([], rest, state, false)
  }

  /** What Write, or at the end of input Finish, takes off a delimited buffer. */
  function Consumed(plan: Plan, state: State, buffer: string, final: bool): Drained<State, Chunk> {
    var d := Drain(Machine(plan), state, buffer);
    if final && d.ok then After(d.chunks, LastRecord(plan, d.state, d.rest)) else d
  }

  lemma ConsumedEmit(plan: Plan, state: State, buffer: string, final: bool)
    requires Next(plan, state, buffer).Emit?
    ensures var e := Next(plan, state, buffer);
      0 < e.n <= |buffer| && Consumed(plan, state, buffer, final) == After([e.chunk], Consumed(plan, e.next, buffer[e.n..], final))
  {
    NextConserves(plan, state, buffer);
    var e := Next(plan, state, buffer);
    DrainEmit(Machine(plan), state, buffer, buffer[e.n..]);
    var d := Drain(Machine(plan), e.next, buffer[e.n..]);
    AfterBoth(e.chunk, d.chunks, LastRecord(plan, d.state, d.rest));
  }

  lemma AfterSnoc(chunks: seq<Chunk>, chunk: Chunk, d: Drained<State, Chunk>)
    ensures After(chunks, After([chunk], d)) == After(chunks + [chunk], d)
  {
    assert chunks + ([chunk] + d.chunks) == (chunks + [chunk]) + d.chunks;
  }

  lemma AfterNone(d: Drained<State, Chunk>)
    ensures After([], d) == d
  {
    assert [] + d.chunks == d.chunks;
  }

  /** One record off the front of a delimited buffer, or the whole of it at the end of input. */
  lemma ConsumedRecord(plan: Plan, state: State, buffer: string, end: nat, final: bool)
    requires plan.options.format != BinaryFormat && 0 < end <= |buffer|
    requires RecordEnd(buffer, plan.options) == Scan(end, false)
      || (final && end == |buffer| && RecordEnd(buffer, plan.options) == Scan(0, false))
    ensures match RecordChunk(plan, state, buffer[..end])
      case Emit(chunk, _, next) => Consumed(plan, state, buffer, final) == After([chunk], Consumed(plan, next, buffer[end..], final))
      case _ => !Consumed(plan, state, buffer, final).ok
  {
    var outcome := RecordChunk(plan, state, buffer[..end]);
    if RecordEnd(buffer, plan.options) == Scan(end, false) {
      assert Next(plan, state, buffer) == outcome;
      if outcome.Emit? {
        ConsumedEmit(plan, state, buffer, final);
      }
    } else {
      assert buffer[..end] == buffer && buffer[end..] == "";
      if outcome.Emit? {
        NothingToConsume(plan, outcome.next, final);
      }
    }
  }

  lemma NothingToConsume(plan: Plan, state: State, final: bool)
    requires plan.options.format != BinaryFormat
    ensures Consumed(plan, state, "", final) == Drained([], "", state, true)
  {
  }

  /** Without a whole record nothing is consumed before the end of input, and at the end an open quote is
      an error. */
  lemma ConsumedPartial(plan: Plan, state: State, buffer: string, final: bool)
    requires plan.options.format != BinaryFormat && RecordEnd(buffer, plan.options).end == 0
    ensures !final ==> Consumed(plan, state, buffer, final) == Drained([], buffer, state, true)
    ensures final && buffer != "" && RecordEnd(buffer, plan.options).quoted ==> !Consumed(plan, state, buffer, final).ok
  {
  }

  /** The input may end here: no header outstanding, no open quote, and a binary file is whole. */
  predicate FinishesWell(plan: Plan, state: State, buffer: string) {
    var d := Consumed(plan, state, buffer, plan.options.format != BinaryFormat);
    d.ok && if plan.options.format != BinaryFormat then !d.state.headerPending
            else d.rest == "" && d.state.binaryHeader && d.state.binaryTrailer
  }

  /** Nothing is lost at the end of input either: the chunks of all writes and of the finish together are
      the bytes written. */
  lemma WholeInputSent(plan: Plan, pieces: seq<string>)
    requires Written(Machine(plan), Start(plan), pieces, MaxRowBytes).ok
    requires var w := Written(Machine(plan), Start(plan), pieces, MaxRowBytes); FinishesWell(plan, w.state, w.rest)
    ensures var w := Written(Machine(plan), Start(plan), pieces, MaxRowBytes);
      Sent(w.chunks) + Sent(Consumed(plan, w.state, w.rest, plan.options.format != BinaryFormat).chunks) == Bytes(pieces)
  {
    var w := Written(Machine(plan), Start(plan), pieces, MaxRowBytes);
    WritesAreCutIndependent(plan, pieces);
    MachineSound(plan);
    CutIndependent(Machine(plan), Start(plan), pieces, MaxRowBytes);
    DrainedDry(Machine(plan), Start(plan), Bytes(pieces));
    assert Drain(Machine(plan), w.state, w.rest) == Drained([], w.rest, w.state, true);
    RestSent(plan, w.state, w.rest);
  }

  lemma RestSent(plan: Plan, state: State, rest: string)
    requires Next(plan, state, rest).More? && FinishesWell(plan, state, rest)
    ensures Sent(Consumed(plan, state, rest, plan.options.format != BinaryFormat).chunks) == rest
  {
    if plan.options.format != BinaryFormat && rest != "" {
      var last := LastRecord(plan, state, rest);
      assert last.chunks == [RecordChunk(plan, state, rest).chunk];
      AfterNone(last);
      DataFirst(last.chunks[0], [], (c: Chunk) => c.data);
      assert [last.chunks[0]] + [] == last.chunks && rest + "" == rest;
    }
  }

  function PrefixedAll(values: seq<Option<string>>, scan: TupleScan): TupleScan {
    match scan case Fields(end, more) => Fields(end, values + more) case _ => scan
  }

  lemma PrefixedSnoc(values: seq<Option<string>>, value: Option<string>, scan: TupleScan)
    ensures PrefixedAll(values, Prefixed(value, scan)) == PrefixedAll(values + [value], scan)
    ensures PrefixedAll([], scan) == scan
  {
    if scan.Fields? {
      assert values + ([value] + scan.values) == (values + [value]) + scan.values;
      assert [] + scan.values == scan.values;
    }
  }

  /** The same fields, collected on the way. */
  function ScanOnto(buffer: string, n: nat, position: nat, values: seq<Option<string>>): TupleScan
    requires position <= |buffer|
    decreases n
  {
    if n == 0 then Fields(position, values)
    else if |buffer| < position + 4 then Incomplete
    else
      var length, start := I32(buffer, position), position + 4;
      if length == -1 then ScanOnto(buffer, n - 1, start, values + [None])
      else if length < 0 || length > MaxRowBytes || start + length > MaxRowBytes then Bad
      else if |buffer| < start + length then Incomplete
      else ScanOnto(buffer, n - 1, start + length, values + [Some(buffer[start..start + length])])
  }

  lemma {:induction false} ScanOntoIs(buffer: string, n: nat, position: nat, values: seq<Option<string>>)
    requires position <= |buffer|
    ensures ScanOnto(buffer, n, position, values) == PrefixedAll(values, ScanFields(buffer, n, position))
    decreases n
  {
    if n == 0 {
      assert values + [] == values;
    } else if position + 4 <= |buffer| {
      var length, start := I32(buffer, position), position + 4;
      if length == -1 {
        ScanOntoIs(buffer, n - 1, start, values + [None]);
        PrefixedSnoc(values, None, ScanFields(buffer, n - 1, start));
      } else if 0 <= length && start + length <= MaxRowBytes && start + length <= |buffer| {
        var value := Some(buffer[start..start + length]);
        ScanOntoIs(buffer, n - 1, start + length, values + [value]);
        PrefixedSnoc(values, value, ScanFields(buffer, n - 1, start + length));
      }
    }
  }

  /** The field loop of a binary tuple. */
  method ScanTuple(buffer: string, columns: nat) returns (r: TupleScan)
    requires |buffer| >= 2
    ensures r == ScanFields(buffer, columns, 2)
  {
    var values: seq<Option<string>> := [];
    var position: nat := 2;
    ScanOntoIs(buffer, columns, 2, []);
    PrefixedSnoc([], None, ScanFields(buffer, columns, 2));
    ghost var result := ScanFields(buffer, columns, 2);
    while |values| < columns
      invariant |values| <= columns && position <= |buffer|
      invariant ScanOnto(buffer, columns - |values|, position, values) == result
      decreases columns - |values|
    {
      if |buffer| < position + 4 {
        return Incomplete;
      }
      var length, start := I32(buffer, position), position + 4;
      if length == -1 {
        values, position := values + [None], start;
        continue;
      }
      if length < 0 || length > MaxRowBytes || start + length > MaxRowBytes {
        return Bad;
      }
      if |buffer| < start + length {
        return Incomplete;
      }
      values, position := values + [Some(buffer[start..start + length])], start + length;
    }
    return Fields(position, values);
  }

  /** A step was carried out: a chunk taken, nothing to take, or an error. */
  predicate Took(
      outcome: Outcome<State, Chunk>, before: State, was: string, chunk: Option<Chunk>, ok: bool, after: State,
      rest: string) {
    match outcome
    case More => ok && chunk == None && after == before && rest == was
    case Fail => !ok
    case Emit(c, n, next) => ok && chunk == Some(c) && after == next && 0 < n <= |was| && rest == was[n..]
  }

  lemma DrainTook(plan: Plan, state: State, buffer: string)
    requires plan.options.format == BinaryFormat
    ensures match BinaryNext(plan, state, buffer)
      case More => Drain(Machine(plan), state, buffer) == Drained([], buffer, state, true)
      case Fail => !Drain(Machine(plan), state, buffer).ok
      case Emit(c, n, next) =>
        0 < n <= |buffer| && Drain(Machine(plan), state, buffer) == After([c], Drain(Machine(plan), next, buffer[n..]))
  {
    if Next(plan, state, buffer).Emit? {
      NextConserves(plan, state, buffer);
      DrainEmit(Machine(plan), state, buffer, buffer[Next(plan, state, buffer).n..]);
    }
  }

  // ---------------------------------------------------------------------------------- the stream

  class Stream {
    const plan: Plan
    var buffer: string
    var headerPending: bool
    var binaryHeader: bool
    var binaryTrailer: bool
    var rows: nat
    ghost var pieces: seq<string>  // what was written so far
    ghost var sent: seq<Chunk>  // and what came out

    function Now(): State
      reads this
    {
      State(headerPending, binaryHeader, binaryTrailer, rows)
    }

    /** The stream is where writing its pieces one by one leads. */
    ghost predicate Valid()
      reads this
    {
      Written(Machine(plan), Start(plan), pieces, MaxRowBytes) == Drained(sent, buffer, Now(), true)
    }

    constructor (p: Plan)
      ensures plan == p && Valid() && pieces == [] && sent == [] && buffer == "" && Now() == Start(p)
    {
      plan := p;
      buffer, headerPending, binaryHeader, binaryTrailer, rows := "", p.header, false, false, 0;
      pieces, sent := [], [];
    }

    /** The chunk of one whole record, or none if its key cannot be routed. */
    method RouteRecord(record: string) returns (chunk: Option<Chunk>)
      modifies this`headerPending, this`rows
      ensures match RecordChunk(plan, old(Now()), record)
        case Emit(c, _, next) => chunk == Some(c) && Now() == next
        case _ => chunk == None
    {
      if headerPending {
        headerPending := false;
        return Some(Chunk("", record));
      }
      var trimmed := TrimTerminator(record);
      if plan.options.format == TextFormat && trimmed == "\\." {
        return Some(Chunk("", record));
      }
      var target := TargetForRecord(plan, trimmed);
      if target.None? {
        return None;
      }
      rows := rows + 1;
      return Some(Chunk(target.value, record));
    }

    method ConsumeDelimited(final: bool) returns (chunks: seq<Chunk>, ok: bool)
      requires plan.options.format != BinaryFormat
      modifies this`buffer, this`headerPending, this`rows
      ensures ok == Consumed(plan, old(Now()), old(buffer), final).ok
      ensures ok ==> Drained(chunks, buffer, Now(), true) == Consumed(plan, old(Now()), old(buffer), final)
    {
      chunks := [];
      AfterNone(Consumed(plan, Now(), buffer, final));
      while |buffer| > 0
        invariant After(chunks, Consumed(plan, Now(), buffer, final)) == Consumed(plan, old(Now()), old(buffer), final)
        decreases |buffer|
      {
        var end, quoted := DelimitedRecordEnd(buffer, plan.options);
        if end == 0 {
          ConsumedPartial(plan, Now(), buffer, final);
          if !final {
            break;
          }
          if quoted {
            return [], false;
          }
          end := |buffer|;
        }
        ConsumedRecord(plan, Now(), buffer, end, final);
        var record := buffer[..end];
        buffer := buffer[end..];
        var chunk := RouteRecord(record);
        if chunk.None? {
          return [], false;
        }
        AfterSnoc(chunks, chunk.value, Consumed(plan, Now(), buffer, final));
        chunks := chunks + [chunk.value];
      }
      ok := true;
      assert chunks + [] == chunks;
    }

    /** The binary header, once it is all there. */
    method TakeHeader() returns (chunk: Option<Chunk>, ok: bool)
      requires !binaryHeader
      modifies this`buffer, this`binaryHeader
      ensures Took(BinaryNext(plan, old(Now()), old(buffer)), old(Now()), old(buffer), chunk, ok, Now(), buffer)
    {
      if |buffer| < 19 {
        return None, true;
      }
      if buffer[..11] != Signature {
        return None, false;
      }
      var extension := U32(buffer, 15);
      if extension > MaxRowBytes {
        return None, false;
      }
      if |buffer| < 19 + extension {
        return None, true;
      }
      chunk, ok := Some(Chunk("", buffer[..19 + extension])), true;
      buffer, binaryHeader := buffer[19 + extension..], true;
    }

    /** One binary tuple, or the trailer. */
    method TakeTuple() returns (chunk: Option<Chunk>, ok: bool)
      requires binaryHeader && !binaryTrailer && |buffer| >= 2
      modifies this`buffer, this`binaryTrailer, this`rows
      ensures Took(BinaryNext(plan, old(Now()), old(buffer)), old(Now()), old(buffer), chunk, ok, Now(), buffer)
    {
      var columns := I16(buffer, 0);
      if columns == -1 {
        chunk, ok := Some(Chunk("", buffer[..2])), true;
        buffer, binaryTrailer := buffer[2..], true;
        return;
      }
      if columns < 0 || columns != plan.columns {
        return None, false;
      }
      var tuple := ScanTuple(buffer, columns);
      if tuple.Bad? {
        return None, false;
      }
      if tuple.Incomplete? {
        return None, true;
      }
      var target := TargetForTuple(plan, tuple.values);
      if target.None? {
        return None, false;
      }
      chunk, ok := Some(Chunk(target.value, buffer[..tuple.end])), true;
      buffer, rows := buffer[tuple.end..], rows + 1;
    }

    method ConsumeBinary() returns (chunks: seq<Chunk>, ok: bool)
      requires plan.options.format == BinaryFormat
      modifies this`buffer, this`binaryHeader, this`binaryTrailer, this`rows
      ensures ok == Drain(Machine(plan), old(Now()), old(buffer)).ok
      ensures ok ==> Drained(chunks, buffer, Now(), true) == Drain(Machine(plan), old(Now()), old(buffer))
    {
      chunks := [];
      var chunk: Option<Chunk>;
      AfterNone(Drain(Machine(plan), Now(), buffer));
      if !binaryHeader {
        DrainTook(plan, Now(), buffer);
        chunk, ok := TakeHeader();
        if !ok || chunk.None? {
          return [], ok;
        }
        chunks := [chunk.value];
      }
      while |buffer| >= 2 && !binaryTrailer
        invariant binaryHeader
        invariant After(chunks, Drain(Machine(plan), Now(), buffer)) == Drain(Machine(plan), old(Now()), old(buffer))
        decreases |buffer|
      {
        DrainTook(plan, Now(), buffer);
        chunk, ok := TakeTuple();
        if !ok {
          return [], false;
        }
        if chunk.None? {
          break;
        }
        AfterSnoc(chunks, chunk.value, Drain(Machine(plan), Now(), buffer));
        chunks := chunks + [chunk.value];
      }
      DrainTook(plan, Now(), buffer);
      if binaryTrailer && |buffer| != 0 {
        return [], false;
      }
      ok := true;
      assert chunks + [] == chunks;
    }

    /** Takes some input in and gives whatever whole records it completes. */
    method Write(data: string) returns (chunks: seq<Chunk>, ok: bool)
      requires Valid()
      modifies this
      ensures ok == Written(Machine(plan), Start(plan), old(pieces) + [data], MaxRowBytes).ok
      ensures ok ==> Valid() && pieces == old(pieces) + [data] && sent == old(sent) + chunks
    {
      assert (pieces + [data])[..|pieces|] == pieces;
      pieces := pieces + [data];
      if |data| == 0 {
        assert sent + [] == sent;
        return [], true;
      }
      buffer := buffer + data;
      if plan.options.format == BinaryFormat {
        chunks, ok := ConsumeBinary();
      } else {
        chunks, ok := ConsumeDelimited(false);
      }
      if !ok {
        return [], false;
      }
      if |buffer| > MaxRowBytes {
        return [], false;
      }
      sent := sent + chunks;
    }

    /** Ends the input: the last record, or proof that the binary file was whole. */
    method Finish() returns (chunks: seq<Chunk>, ok: bool)
      modifies this`buffer, this`headerPending, this`binaryHeader, this`binaryTrailer, this`rows
      ensures ok == FinishesWell(plan, old(Now()), old(buffer))
      ensures ok ==> Drained(chunks, buffer, Now(), true) == Consumed(plan, old(Now()), old(buffer), plan.options.format != BinaryFormat)
    {
      if plan.options.format != BinaryFormat {
        chunks, ok := ConsumeDelimited(true);
        if !ok || headerPending {
          return [], false;
        }
      } else {
        chunks, ok := ConsumeBinary();
        if !ok || |buffer| != 0 || !binaryHeader || !binaryTrailer {
          return [], false;
        }
      }
    }
  }
}
