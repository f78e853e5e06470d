/** What each Burrow of a COPY FROM receives. */
module CopySplit {
  import opened Text
  import opened CopyRecords
  import opened Splitter
  import opened CopyStream

  /** The chunks addressed to a Burrow, or to all of them. */
  function Addressed(chunks: seq<Chunk>, target: string): seq<Chunk> {
    if chunks == [] then [] else
      var last := chunks[|chunks| - 1];
      Addressed(chunks[..|chunks| - 1], target) + (if last.target == "" || last.target == target then [last] else [])
  }

  /** The bytes a Burrow is sent for them. */
  function Received(chunks: seq<Chunk>, target: string): string {
    if chunks == [] then "" else
      var last := chunks[|chunks| - 1];
      Received(chunks[..|chunks| - 1], target) + (if last.target == "" || last.target == target then last.data else "")
  }

  type Buffers = map<string, string>

  function Buffered(buffers: Buffers, target: string): string {
    if target in buffers then buffers[target] else ""
  }

  method AppendToAll(buffers: Buffers, targets: seq<string>, data: string) returns (after: Buffers)
    requires forall i, j :: 0 <= i < j < |targets| ==> targets[i] != targets[j]
    ensures forall t :: Buffered(after, t) == if t in targets then Buffered(buffers, t) + data else Buffered(buffers, t)
  {
    after := buffers;
    var i := 0;
    while i < |targets|
      invariant i <= |targets|
      invariant forall t :: Buffered(after, t) == if t in targets[..i] then Buffered(buffers, t) + data else Buffered(buffers, t)
    {
      assert targets[..i + 1] == targets[..i] + [targets[i]];
      after := after[targets[i] := Buffered(after, targets[i]) + data];
      i := i + 1;
    }
    assert targets[..i] == targets;
  }

  /** sendCopyChunks: one message per Burrow with its own chunks in input order. */
  method SendChunks(targets: seq<string>, chunks: seq<Chunk>) returns (byTarget: Buffers)
    requires forall i, j :: 0 <= i < j < |targets| ==> targets[i] != targets[j]
    requires "" !in targets
    ensures forall t :: t in targets ==> Buffered(byTarget, t) == Received(chunks, t)
  {
    byTarget := map[];
    var i := 0;
    while i < |chunks|
      invariant i <= |chunks|
      invariant forall t :: t in targets ==> Buffered(byTarget, t) == Received(chunks[..i], t)
    {
      assert chunks[..i + 1][..i] == chunks[..i];
      var chunk := chunks[i];
      if chunk.target == "" {
        byTarget := AppendToAll(byTarget, targets, chunk.data);
      } else {
        byTarget := byTarget[chunk.target := Buffered(byTarget, chunk.target) + chunk.data];
      }
      i := i + 1;
    }
    assert chunks[..i] == chunks;
  }

  // ------------------------------------------------------------------------------ binary shape

  /** A tuple chunk: its bytes are exactly one tuple, and its key is owned by its target. */
  predicate IsTuple(plan: Plan, c: Chunk) {
    && c.target != "" && |c.data| >= 2 && I16(c.data, 0) == plan.columns
    && var scan := ScanFields(c.data, plan.columns, 2);
       scan.Fields? && scan.end == |c.data| && TargetForTuple(plan, scan.values) == Some(c.target)
  }

  predicate IsHeader(c: Chunk) {
    c.target == "" && ScanHeader(c.data) == HeaderEnd(|c.data|)
  }

  predicate IsTrailer(c: Chunk) {
    c.target == "" && |c.data| == 2 && I16(c.data, 0) == -1
  }

  predicate AllTuples(plan: Plan, chunks: seq<Chunk>) {
    forall i :: 0 <= i < |chunks| ==> IsTuple(plan, chunks[i])
  }

  /** What the first of n scanned fields can be. */
  lemma FirstOfFields(buffer: string, n: nat, position: nat)
    requires n > 0 && position <= |buffer| && ScanFields(buffer, n, position).Fields?
    ensures position + 4 <= |buffer|
    ensures var length := I32(buffer, position);
      length == -1 || (0 <= length && position + 4 + length <= MaxRowBytes && position + 4 + length <= |buffer|)
  {
  }

  lemma ScanFieldsTight(buffer: string, n: nat, position: nat, end: nat)
    requires position <= |buffer| && ScanFields(buffer, n, position).Fields? && ScanFields(buffer, n, position).end <= end <= |buffer|
    ensures position <= end && ScanFields(buffer[..end], n, position) == ScanFields(buffer, n, position)
  {
    ScanPrefix(buffer, buffer[..end], n, position);
  }

  /** The fields are the same in a shorter buffer that still holds them. */
  lemma {:induction false} ScanPrefix(buffer: string, cut: string, n: nat, position: nat)
    requires cut <= buffer && position <= |buffer|
    requires ScanFields(buffer, n, position).Fields? && ScanFields(buffer, n, position).end <= |cut|
    ensures position <= |cut| && ScanFields(cut, n, position) == ScanFields(buffer, n, position)
    decreases n
  {
    if n > 0 {
      FirstOfFields(buffer, n, position);
      var length := I32(buffer, position);
      if length == -1 {
        NullFirst(buffer, n, position);
        ScanPrefix(buffer, cut, n - 1, position + 4);
        SameNumber(buffer, cut, position);
        NullFirst(cut, n, position);
      } else {
        var next := position + 4 + length;
        ValueFirst(buffer, n, position, length);
        ScanPrefix(buffer, cut, n - 1, next);
        SameNumber(buffer, cut, position);
        SameSlice(buffer, cut, position + 4, next);
        ValueFirst(cut, n, position, length);
      }
    }
  }

  lemma SameNumber(buffer: string, cut: string, position: nat)
    requires cut <= buffer && position + 4 <= |cut|
    ensures I32(cut, position) == I32(buffer, position)
  {
  }

  lemma SameSlice(buffer: string, cut: string, i: nat, j: nat)
    requires cut <= buffer && i <= j <= |cut|
    ensures cut[i..j] == buffer[i..j]
  {
  }

  lemma TupleIsTight(plan: Plan, state: State, buffer: string)
    requires TupleNext(plan, state, buffer).Emit? && !state.binaryTrailer
    ensures var e := TupleNext(plan, state, buffer);
      if e.next.binaryTrailer then IsTrailer(e.chunk) && e.next == state.(binaryTrailer := true)
      else IsTuple(plan, e.chunk) && e.next == state.(rows := state.rows + 1)
  {
    if I16(buffer, 0) == -1 {
      assert U16(buffer[..2], 0) == U16(buffer, 0);
    } else {
      var end := ScanFields(buffer, plan.columns, 2).end;
      ScanFieldsTight(buffer, plan.columns, 2, end);
      assert U16(buffer[..end], 0) == U16(buffer, 0);
    }
  }

  /** After the header come tuples, counted, and at most one trailer, which ends the file. */
  lemma {:induction false} DrainTuples(plan: Plan, state: State, buffer: string)
    requires plan.options.format == BinaryFormat && state.binaryHeader && !state.binaryTrailer
    requires Drain(Machine(plan), state, buffer).ok
    ensures var d := Drain(Machine(plan), state, buffer);
      d.state.binaryHeader && if d.state.binaryTrailer then TuplesThenTrailer(plan, d, state.rows) else TuplesOnly(plan, d, state.rows)
    decreases |buffer|
  {
    DrainTook(plan, state, buffer);
    if TupleNext(plan, state, buffer).Emit? {
      var e := TupleNext(plan, state, buffer);
      TupleIsTight(plan, state, buffer);
      var rest := buffer[e.n..];
      if e.next.binaryTrailer {
        DrainTook(plan, e.next, rest);
      } else {
        DrainTuples(plan, e.next, rest);
        TuplesAfter(plan, e.chunk, Drain(Machine(plan), e.next, rest), state.rows);
      }
    }
  }

  predicate TuplesOnly(plan: Plan, d: Drained<State, Chunk>, rows: nat) {
    AllTuples(plan, d.chunks) && d.state.rows == rows + |d.chunks|
  }

  predicate TuplesThenTrailer(plan: Plan, d: Drained<State, Chunk>, rows: nat) {
    var n := |d.chunks|;
    && n > 0 && AllTuples(plan, d.chunks[..n - 1]) && IsTrailer(d.chunks[n - 1])
    && d.state.rows == rows + n - 1 && d.rest == ""
  }

  lemma TuplesAfter(plan: Plan, chunk: Chunk, d: Drained<State, Chunk>, rows: nat)
    requires IsTuple(plan, chunk)
    ensures TuplesOnly(plan, d, rows + 1) ==> TuplesOnly(plan, After([chunk], d), rows)
    ensures TuplesThenTrailer(plan, d, rows + 1) ==> TuplesThenTrailer(plan, After([chunk], d), rows)
  {
    if TuplesThenTrailer(plan, d, rows + 1) {
      var n := |d.chunks|;
      assert ([chunk] + d.chunks)[..n] == [chunk] + d.chunks[..n - 1];
    }
  }

  /** A complete file: one header, tuples, one trailer. */
  predicate IsFile(plan: Plan, chunks: seq<Chunk>) {
    var n := |chunks|;
    n >= 2 && IsHeader(chunks[0]) && AllTuples(plan, chunks[1..n - 1]) && IsTrailer(chunks[n - 1])
  }

  lemma HeaderIsTight(buffer: string, length: nat)
    requires ScanHeader(buffer) == HeaderEnd(length)
    ensures ScanHeader(buffer[..length]) == HeaderEnd(length)
  {
    assert buffer[..length][..11] == buffer[..11];
    assert U32(buffer[..length], 15) == U32(buffer, 15);
  }

  /** A successful binary COPY is one file, and Rows counts its tuples. */
  lemma RunIsFile(plan: Plan, buffer: string)
    requires plan.options.format == BinaryFormat && FinishesWell(plan, Start(plan), buffer)
    ensures var d := Drain(Machine(plan), Start(plan), buffer);
      IsFile(plan, d.chunks) && d.rest == "" && d.state.rows == |d.chunks| - 2
  {
    var state := Start(plan);
    DrainTook(plan, state, buffer);
    var e := BinaryNext(plan, state, buffer);
    HeaderIsTight(buffer, e.n);
    DrainTuples(plan, e.next, buffer[e.n..]);
    var d := Drain(Machine(plan), e.next, buffer[e.n..]);
    var chunks, n := [e.chunk] + d.chunks, |d.chunks|;
    assert chunks[1..n] == d.chunks[..n - 1] && chunks[n] == d.chunks[n - 1];
  }

  // --------------------------------------------------------------------------- each Burrow's file

  lemma {:induction false} SentAppend(a: seq<Chunk>, c: Chunk)
    ensures Sent(a + [c]) == Sent(a) + c.data
  {
    if a == [] {
      assert [] + [c] == [c] && [c][1..] == [];
    } else {
      assert (a + [c])[1..] == a[1..] + [c];
      SentAppend(a[1..], c);
    }
  }

  /** A Burrow is sent the bytes of the chunks addressed to it. */
  lemma {:induction false} ReceivedIsSent(chunks: seq<Chunk>, target: string)
    ensures Received(chunks, target) == Sent(Addressed(chunks, target))
  {
    if chunks != [] {
      var init, last := chunks[..|chunks| - 1], chunks[|chunks| - 1];
      ReceivedIsSent(init, target);
      if last.target == "" || last.target == target {
        SentAppend(Addressed(init, target), last);
      } else {
        assert Received(init, target) + "" == Received(init, target);
        assert Addressed(init, target) + [] == Addressed(init, target);
      }
    }
  }

  /** The tuples of one Burrow. */
  function Owned(tuples: seq<Chunk>, target: string): seq<Chunk> {
    if tuples == [] then [] else
      Owned(tuples[..|tuples| - 1], target) + (if tuples[|tuples| - 1].target == target then [tuples[|tuples| - 1]] else [])
  }

  lemma {:induction false} OwnedTuples(plan: Plan, tuples: seq<Chunk>, target: string)
    requires AllTuples(plan, tuples)
    ensures AllTuples(plan, Owned(tuples, target))
    ensures forall i :: 0 <= i < |Owned(tuples, target)| ==> Owned(tuples, target)[i].target == target
  {
    if tuples != [] {
      OwnedTuples(plan, tuples[..|tuples| - 1], target);
    }
  }

  lemma {:induction false} AddressedTuples(header: Chunk, tuples: seq<Chunk>, target: string)
    requires header.target == "" && forall i :: 0 <= i < |tuples| ==> tuples[i].target != ""
    ensures Addressed([header] + tuples, target) == [header] + Owned(tuples, target)
    decreases |tuples|
  {
    if tuples == [] {
      assert [header] + tuples == [] + [header] && [header] + Owned(tuples, target) == [] + [header];
      AddressedSnoc([], header, target);
    } else {
      var init, last := tuples[..|tuples| - 1], tuples[|tuples| - 1];
      AddressedTuples(header, init, target);
      assert [header] + tuples == ([header] + init) + [last];
      AddressedSnoc([header] + init, last, target);
      Prefix(header, Owned(init, target), if last.target == target then [last] else []);
    }
  }

  lemma Prefix(header: Chunk, a: seq<Chunk>, b: seq<Chunk>)
    ensures ([header] + a) + b == [header] + (a + b)
  {
  }

  lemma AddressedSnoc(chunks: seq<Chunk>, last: Chunk, target: string)
    ensures Addressed(chunks + [last], target)
      == Addressed(chunks, target) + (if last.target == "" || last.target == target then [last] else [])
  {
    assert (chunks + [last])[..|chunks|] == chunks;
  }

  /** Each Burrow receives the header, its own tuples in input order, and the trailer. */
  lemma BurrowFile(plan: Plan, chunks: seq<Chunk>, target: string)
    requires IsFile(plan, chunks) && target != ""
    ensures var tuples := chunks[1..|chunks| - 1];
      Addressed(chunks, target) == [chunks[0]] + Owned(tuples, target) + [chunks[|chunks| - 1]]
    ensures IsFile(plan, Addressed(chunks, target))
  {
    var n := |chunks|;
    var header, tuples, trailer := chunks[0], chunks[1..n - 1], chunks[n - 1];
    assert chunks[..n - 1] == [header] + tuples;
    assert forall i :: 0 <= i < |tuples| ==> tuples[i].target != "" by {
      assert AllTuples(plan, tuples);
    }
    AddressedTuples(header, tuples, target);
    OwnedTuples(plan, tuples, target);
    var mine := [header] + Owned(tuples, target) + [trailer];
    assert mine[1..|mine| - 1] == Owned(tuples, target);
  }

  // ------------------------------------------------------------------------- a file reads as itself

  const Body := (c: Chunk) => c.data

  lemma HeaderReads(plan: Plan, state: State, c: Chunk)
    requires plan.options.format == BinaryFormat && !state.binaryHeader && IsHeader(c)
    ensures Reads(Machine(plan), Body, state, c, state.(binaryHeader := true))
  {
    forall rest: string ensures BinaryNext(plan, state, c.data + rest) == Emit(c, |c.data|, state.(binaryHeader := true)) {
      ScanHeaderStable(c.data, rest);
      assert (c.data + rest)[..|c.data|] == c.data;
    }
  }

  lemma TupleReads(plan: Plan, state: State, c: Chunk)
    requires plan.options.format == BinaryFormat && state.binaryHeader && !state.binaryTrailer && IsTuple(plan, c)
    ensures Reads(Machine(plan), Body, state, c, state.(rows := state.rows + 1))
  {
    assert c.data[..|c.data|] == c.data;
    assert TupleNext(plan, state, c.data) == Emit(c, |c.data|, state.(rows := state.rows + 1));
    forall rest: string ensures TupleNext(plan, state, c.data + rest) == Emit(c, |c.data|, state.(rows := state.rows + 1)) {
      TupleNextStable(plan, state, c.data, rest);
    }
  }

  lemma TrailerReads(plan: Plan, state: State, c: Chunk)
    requires plan.options.format == BinaryFormat && state.binaryHeader && !state.binaryTrailer && IsTrailer(c)
    ensures Reads(Machine(plan), Body, state, c, state.(binaryTrailer := true))
  {
    assert c.data[..2] == c.data;
    assert TupleNext(plan, state, c.data) == Emit(c, 2, state.(binaryTrailer := true));
    forall rest: string ensures TupleNext(plan, state, c.data + rest) == Emit(c, 2, state.(binaryTrailer := true)) {
      TupleNextStable(plan, state, c.data, rest);
    }
  }

  /** The state before chunk i of a file of n chunks, or after the last. */
  function StateAt(plan: Plan, n: nat, i: nat): State
    requires n >= 2 && i <= n
  {
    State(plan.header, i > 0, i == n, if i == 0 then 0 else if i == n then n - 2 else i - 1)
  }

  lemma ChunkReads(plan: Plan, chunks: seq<Chunk>, i: nat)
    requires plan.options.format == BinaryFormat && IsFile(plan, chunks) && i < |chunks|
    ensures Reads(Machine(plan), Body, StateAt(plan, |chunks|, i), chunks[i], StateAt(plan, |chunks|, i + 1))
  {
    var n := |chunks|;
    var state := StateAt(plan, n, i);
    if i == 0 {
      HeaderReads(plan, state, chunks[0]);
    } else if i == n - 1 {
      TrailerReads(plan, state, chunks[i]);
    } else {
      assert IsTuple(plan, chunks[1..n - 1][i - 1]);
      TupleReads(plan, state, chunks[i]);
    }
  }

  lemma FileStates(plan: Plan, chunks: seq<Chunk>) returns (states: seq<State>)
    requires plan.options.format == BinaryFormat && IsFile(plan, chunks)
    ensures |states| == |chunks| + 1 && states[0] == Start(plan) && states[|chunks|] == StateAt(plan, |chunks|, |chunks|)
    ensures forall i :: 0 <= i < |chunks| ==> Reads(Machine(plan), Body, states[i], chunks[i], states[i + 1])
  {
    var n := |chunks|;
    states := seq(n + 1, i requires 0 <= i < n + 1 => StateAt(plan, n, i));
    forall i | 0 <= i < n ensures Reads(Machine(plan), Body, states[i], chunks[i], states[i + 1]) {
      ChunkReads(plan, chunks, i);
    }
  }

  lemma DryAfterTrailer(plan: Plan, state: State)
    requires plan.options.format == BinaryFormat && state.binaryHeader && state.binaryTrailer
    ensures Machine(plan)(state, "").More?
  {
  }

  /** The bytes of a file are read back as its chunks. */
  lemma FileReads(plan: Plan, chunks: seq<Chunk>)
    requires plan.options.format == BinaryFormat && IsFile(plan, chunks)
    ensures Drain(Machine(plan), Start(plan), Data(chunks, Body)) == Drained(chunks, "", StateAt(plan, |chunks|, |chunks|), true)
  {
    var states := FileStates(plan, chunks);
    DryAfterTrailer(plan, states[|chunks|]);
    ReadsBack(Machine(plan), Body, chunks, states);
  }

  lemma FileFinishes(plan: Plan, chunks: seq<Chunk>)
    requires plan.options.format == BinaryFormat && IsFile(plan, chunks)
    ensures FinishesWell(plan, Start(plan), Data(chunks, Body))
  {
    FileReads(plan, chunks);
  }

  /** The split of a successful binary COPY: every Burrow receives one complete file, the same header,
      its own tuples in input order and one trailer; each tuple goes to exactly one Burrow. */
  lemma SplitFiles(plan: Plan, input: string, target: string)
    requires plan.options.format == BinaryFormat && FinishesWell(plan, Start(plan), input) && target != ""
    ensures var chunks := Drain(Machine(plan), Start(plan), input).chunks;
      && IsFile(plan, chunks) && Sent(chunks) == input
      && Received(chunks, target) == Sent(Addressed(chunks, target))
      && Addressed(chunks, target) == [chunks[0]] + Owned(chunks[1..|chunks| - 1], target) + [chunks[|chunks| - 1]]
      && FinishesWell(plan, Start(plan), Received(chunks, target))
      && Drain(Machine(plan), Start(plan), Received(chunks, target)).chunks == Addressed(chunks, target)
  {
    RunIsFile(plan, input);
    var chunks := Drain(Machine(plan), Start(plan), input).chunks;
    BurrowFile(plan, chunks, target);
    ReceivedIsSent(chunks, target);
    FileReads(plan, Addressed(chunks, target));
    FileFinishes(plan, Addressed(chunks, target));
    MachineSound(plan);
    NothingLost(Machine(plan), (c: Chunk) => c.data, Start(plan), input);
    assert Sent(chunks) + "" == Sent(chunks);
  }

  // ---------------------------------------------------------------------------- rows and headers

  /** The chunks that are rows: those with one target. */
  function RowCount(chunks: seq<Chunk>): nat {
    if chunks == [] then 0 else (if chunks[0].target == "" then 0 else 1) + RowCount(chunks[1..])
  }

  /** A step counts a row exactly when it emits one, and a pending header is the first record. */
  lemma StepCounts(plan: Plan, state: State, buffer: string)
    requires Next(plan, state, buffer).Emit?
    ensures var e := Next(plan, state, buffer);
      && e.next.rows == state.rows + (if e.chunk.target == "" then 0 else 1)
      && (plan.options.format != BinaryFormat && state.headerPending ==> e.chunk.target == "" && !e.next.headerPending)
  {
  }

  lemma RowCountAfter(chunk: Chunk, chunks: seq<Chunk>)
    ensures RowCount([chunk] + chunks) == (if chunk.target == "" then 0 else 1) + RowCount(chunks)
  {
    assert ([chunk] + chunks)[1..] == chunks;
  }

  /** In every format Rows counts exactly the chunks that go to one Burrow. */
  lemma {:induction false} RowsCounted(plan: Plan, state: State, buffer: string)
    ensures var d := Drain(Machine(plan), state, buffer); d.state.rows == state.rows + RowCount(d.chunks)
    decreases |buffer|
  {
    var e := Next(plan, state, buffer);
    if e.Emit? {
      NextConserves(plan, state, buffer);
      StepCounts(plan, state, buffer);
      var rest := buffer[e.n..];
      DrainEmit(Machine(plan), state, buffer, rest);
      RowsCounted(plan, e.next, rest);
      RowCountAfter(e.chunk, Drain(Machine(plan), e.next, rest).chunks);
    }
  }

  /** With HEADER the first record goes to every Burrow. */
  lemma HeaderForAll(plan: Plan, buffer: string)
    requires plan.header && plan.options.format != BinaryFormat && Drain(Machine(plan), Start(plan), buffer).chunks != []
    ensures Drain(Machine(plan), Start(plan), buffer).chunks[0].target == ""
    ensures !Drain(Machine(plan), Start(plan), buffer).state.headerPending
  {
    var e := Next(plan, Start(plan), buffer);
    NextConserves(plan, Start(plan), buffer);
    StepCounts(plan, Start(plan), buffer);
    DrainEmit(Machine(plan), Start(plan), buffer, buffer[e.n..]);
    HeaderStaysDone(plan, e.next, buffer[e.n..]);
  }

  lemma {:induction false} HeaderStaysDone(plan: Plan, state: State, buffer: string)
    requires !state.headerPending
    ensures !Drain(Machine(plan), state, buffer).state.headerPending
    decreases |buffer|
  {
    var e := Next(plan, state, buffer);
    if e.Emit? {
      NextConserves(plan, state, buffer);
      DrainEmit(Machine(plan), state, buffer, buffer[e.n..]);
      HeaderStaysDone(plan, e.next, buffer[e.n..]);
    }
  }
}
