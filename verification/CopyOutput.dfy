/** COPY TO: the Burrows' streams merged into one, without their inner envelopes. */
module CopyOutput {
  import opened Text
  import opened CopyRecords
  import opened Splitter
  import opened CopyStream
  import opened CopySplit

  // ---------------------------------------------------------------------- the parts of a file

  datatype Piece = Header(data: string) | Tuple(data: string) | Trailer(data: string)

  /** How much of the binary envelope has been seen. */
  datatype Seen = Seen(header: bool, trailer: bool)

  function TupleOut(seen: Seen, buffer: string): Outcome<Seen, Piece> {
    if |buffer| < 2 then More
    else if I16(buffer, 0) == -1 then Emit(Trailer(buffer[..2]), 2, seen.(trailer := true))
    else if I16(buffer, 0) < 0 then Fail
    else
      match ScanFields(buffer, I16(buffer, 0), 2)
      case Incomplete => More
      case Bad => Fail
      case Fields(end, _) => Emit(Tuple(buffer[..end]), end, seen)
  }

  function OutNext(seen: Seen, buffer: string): Outcome<Seen, Piece> {
    if !seen.header then
      match ScanHeader(buffer)
      case HeaderIncomplete => More
      case HeaderBad => Fail
      case HeaderEnd(length) => Emit(Header(buffer[..length]), length, seen.(header := true))
    else if seen.trailer then
      if buffer == "" then More else Fail
    else
      TupleOut(seen, buffer)
  }

  const Reader := (seen: Seen, buffer: string) => OutNext(seen, buffer)
  const PieceData := (p: Piece) => p.data
  const Unseen := Seen(false, false)

  lemma TupleOutStable(seen: Seen, a: string, b: string)
    requires !TupleOut(seen, a).More?
    ensures TupleOut(seen, a + b) == TupleOut(seen, a)
  {
    assert U16(a + b, 0) == U16(a, 0);
    if I16(a, 0) == -1 {
      assert (a + b)[..2] == a[..2];
    } else if I16(a, 0) >= 0 {
      ScanFieldsStable(a, b, I16(a, 0), 2);
      var scan := ScanFields(a, I16(a, 0), 2);
      if scan.Fields? {
        assert (a + b)[..scan.end] == a[..scan.end];
      }
    }
  }

  lemma OutNextStable(seen: Seen, a: string, b: string)
    requires !OutNext(seen, a).More?
    ensures OutNext(seen, a + b) == OutNext(seen, a)
  {
    if !seen.header {
      ScanHeaderStable(a, b);
      var scan := ScanHeader(a);
      if scan.HeaderEnd? {
        assert (a + b)[..scan.length] == a[..scan.length];
      }
    } else if !seen.trailer {
      TupleOutStable(seen, a, b);
    }
  }

  lemma ReaderSound()
    ensures Stable(Reader) && Progress(Reader) && Conserves(Reader, PieceData) && Reader(Unseen, "").More?
  {
    forall seen, a, b | !Reader(seen, a).More? ensures Reader(seen, a + b) == Reader(seen, a) {
      OutNextStable(seen, a, b);
    }
  }

  // --------------------------------------------------------------------------- complete files

  predicate Good(p: Piece) {
    match p
    case Header(data) => ScanHeader(data) == HeaderEnd(|data|)
    case Tuple(data) =>
      |data| >= 2 && I16(data, 0) >= 0 && (var s := ScanFields(data, I16(data, 0), 2); s.Fields? && s.end == |data|)
    case Trailer(data) => |data| == 2 && I16(data, 0) == -1
  }

  predicate IsTupleAt(pieces: seq<Piece>, i: nat)
    requires i < |pieces|
  {
    pieces[i].Tuple? && Good(pieces[i])
  }

  /** A header, tuples and a trailer. */
  predicate WholeFile(pieces: seq<Piece>) {
    var n := |pieces|;
    && n >= 2 && pieces[0].Header? && Good(pieces[0]) && pieces[n - 1].Trailer? && Good(pieces[n - 1])
    && forall i :: 0 < i < n - 1 ==> IsTupleAt(pieces, i)
  }

  function Tuples(pieces: seq<Piece>): seq<Piece>
    requires |pieces| >= 2
  {
    pieces[1..|pieces| - 1]
  }

  lemma PieceReads(seen: Seen, p: Piece)
    requires Good(p) && !seen.trailer && (p.Header? <==> !seen.header)
    ensures Reads(Reader, PieceData, seen, p, Seen(true, p.Trailer?))
  {
    var after := Seen(true, p.Trailer?);
    assert p.data[..|p.data|] == p.data;
    assert OutNext(seen, p.data) == Emit(p, |p.data|, after);
    forall rest: string ensures OutNext(seen, p.data + rest) == Emit(p, |p.data|, after) {
      OutNextStable(seen, p.data, rest);
    }
  }

  function SeenAt(n: nat, i: nat): Seen {
    Seen(i > 0, i == n)
  }

  lemma FilePieceReads(pieces: seq<Piece>, i: nat)
    requires WholeFile(pieces) && i < |pieces|
    ensures Reads(Reader, PieceData, SeenAt(|pieces|, i), pieces[i], SeenAt(|pieces|, i + 1))
  {
    if 0 < i < |pieces| - 1 {
      assert IsTupleAt(pieces, i);
    }
    PieceReads(SeenAt(|pieces|, i), pieces[i]);
  }

  lemma FileSeen(pieces: seq<Piece>) returns (seen: seq<Seen>)
    requires WholeFile(pieces)
    ensures |seen| == |pieces| + 1 && seen[0] == Unseen && seen[|pieces|] == Seen(true, true)
    ensures forall i :: 0 <= i < |pieces| ==> Reads(Reader, PieceData, seen[i], pieces[i], seen[i + 1])
  {
    var n := |pieces|;
    seen := seq(n + 1, i requires 0 <= i < n + 1 => SeenAt(n, i));
    forall i | 0 <= i < n ensures Reads(Reader, PieceData, seen[i], pieces[i], seen[i + 1]) {
      FilePieceReads(pieces, i);
    }
  }

  /** A complete file is read as its parts. */
  lemma WholeFileReads(pieces: seq<Piece>)
    requires WholeFile(pieces)
    ensures Drain(Reader, Unseen, Data(pieces, PieceData)) == Drained(pieces, "", Seen(true, true), true)
  {
    var seen := FileSeen(pieces);
    ReadsBack(Reader, PieceData, pieces, seen);
  }

  lemma DrainOut(seen: Seen, buffer: string)
    ensures match OutNext(seen, buffer)
      case More => Drain(Reader, seen, buffer) == Drained([], buffer, seen, true)
      case Fail => !Drain(Reader, seen, buffer).ok
      case Emit(p, n, next) =>
        0 < n <= |buffer| && Drain(Reader, seen, buffer) == After([p], Drain(Reader, next, buffer[n..]))
  {
    var outcome := OutNext(seen, buffer);
    if outcome.Emit? {
      DrainEmit(Reader, seen, buffer, buffer[outcome.n..]);
    }
  }

  /** Tuples and a trailer. */
  predicate TailOfFile(pieces: seq<Piece>) {
    var n := |pieces|;
    && n >= 1 && pieces[n - 1].Trailer? && Good(pieces[n - 1])
    && forall i :: 0 <= i < n - 1 ==> IsTupleAt(pieces, i)
  }

  lemma PieceIsGood(seen: Seen, buffer: string)
    requires OutNext(seen, buffer).Emit? && !seen.trailer
    ensures var e := OutNext(seen, buffer);
      Good(e.chunk) && (e.chunk.Header? <==> !seen.header) && e.next == Seen(true, e.chunk.Trailer?)
  {
    if !seen.header {
      HeaderIsTight(buffer, OutNext(seen, buffer).n);
    } else if I16(buffer, 0) == -1 {
      assert U16(buffer[..2], 0) == U16(buffer, 0);
    } else {
      var end := ScanFields(buffer, I16(buffer, 0), 2).end;
      ScanFieldsTight(buffer, I16(buffer, 0), 2, end);
      assert U16(buffer[..end], 0) == U16(buffer, 0);
    }
  }

  lemma TailAfter(p: Piece, tail: seq<Piece>)
    requires p.Tuple? && Good(p) && TailOfFile(tail)
    ensures TailOfFile([p] + tail)
  {
    var all := [p] + tail;
    forall i | 0 <= i < |all| - 1 ensures IsTupleAt(all, i) {
      if i > 0 {
        assert IsTupleAt(tail, i - 1);
      }
    }
  }

  lemma {:induction false} DrainedTail(buffer: string)
    requires Drain(Reader, Seen(true, false), buffer).ok && Drain(Reader, Seen(true, false), buffer).state.trailer
    ensures TailOfFile(Drain(Reader, Seen(true, false), buffer).chunks)
    decreases |buffer|
  {
    var seen := Seen(true, false);
    DrainOut(seen, buffer);
    var e := OutNext(seen, buffer);
    PieceIsGood(seen, buffer);
    var rest := buffer[e.n..];
    DrainOut(e.next, rest);
    if e.chunk.Tuple? {
      DrainedTail(rest);
      TailAfter(e.chunk, Drain(Reader, seen, rest).chunks);
    }
  }

  /** A stream that ends well was one whole file. */
  lemma EndedWellIsWhole(bytes: string)
    requires var d := Drain(Reader, Unseen, bytes); d.ok && d.rest == "" && d.state == Seen(true, true)
    ensures var d := Drain(Reader, Unseen, bytes); WholeFile(d.chunks) && Data(d.chunks, PieceData) == bytes
  {
    DrainOut(Unseen, bytes);
    var e := OutNext(Unseen, bytes);
    PieceIsGood(Unseen, bytes);
    DrainedTail(bytes[e.n..]);
    var tail := Drain(Reader, e.next, bytes[e.n..]).chunks;
    HeaderAndTail(e.chunk, tail);
    ReaderSound();
    NothingLost(Reader, PieceData, Unseen, bytes);
    var data := Data([e.chunk] + tail, PieceData);
    assert data + "" == data;
  }

  lemma HeaderAndTail(header: Piece, tail: seq<Piece>)
    requires header.Header? && Good(header) && TailOfFile(tail)
    ensures WholeFile([header] + tail)
  {
    var all := [header] + tail;
    forall i | 0 < i < |all| - 1 ensures IsTupleAt(all, i) {
      assert IsTupleAt(tail, i - 1);
    }
  }

  // ---------------------------------------------------------------------------------- merging

  predicate Kept(p: Piece, first: bool, last: bool) {
    p.Tuple? || (p.Header? && first) || (p.Trailer? && last)
  }

  /** The bytes one Burrow's stream contributes. */
  function Contribution(pieces: seq<Piece>, first: bool, last: bool): string {
    if pieces == [] then "" else
      (if Kept(pieces[0], first, last) then pieces[0].data else "") + Contribution(pieces[1..], first, last)
  }

  lemma {:induction false} ContributionAppend(a: seq<Piece>, b: seq<Piece>, first: bool, last: bool)
    ensures Contribution(a + b, first, last) == Contribution(a, first, last) + Contribution(b, first, last)
  {
    if a == [] {
      assert a + b == b;
    } else {
      assert (a + b)[1..] == a[1..] + b;
      ContributionAppend(a[1..], b, first, last);
    }
  }

  lemma {:induction false} TuplesContribute(pieces: seq<Piece>, first: bool, last: bool)
    requires forall i :: 0 <= i < |pieces| ==> pieces[i].Tuple?
    ensures Contribution(pieces, first, last) == Data(pieces, PieceData)
  {
    if pieces != [] {
      TuplesContribute(pieces[1..], first, last);
    }
  }

  /** A complete file contributes its tuples, the first one its header too and the last one its trailer. */
  lemma FileContributes(pieces: seq<Piece>, first: bool, last: bool)
    requires WholeFile(pieces)
    ensures Contribution(pieces, first, last)
      == (if first then pieces[0].data else "") + (Data(Tuples(pieces), PieceData) + (if last then pieces[|pieces| - 1].data else ""))
  {
    var n := |pieces|;
    var header, tuples, trailer := pieces[0], Tuples(pieces), pieces[n - 1];
    assert pieces[1..] == tuples + [trailer];
    ContributionAppend(tuples, [trailer], first, last);
    forall i | 0 <= i < |tuples| ensures tuples[i].Tuple? {
      assert IsTupleAt(pieces, i + 1);
    }
    TuplesContribute(tuples, first, last);
    assert [trailer][1..] == [] && Contribution([trailer], first, last) == (if last then trailer.data else "") + "";
  }

  function Flat(parts: seq<string>): string {
    if parts == [] then "" else Flat(parts[..|parts| - 1]) + parts[|parts| - 1]
  }

  /** What each Burrow's stream contributes. */
  function Contributions(files: seq<seq<Piece>>): (cs: seq<string>)
    ensures |cs| == |files|
  {
    seq(|files|, i requires 0 <= i < |files| => Contribution(files[i], i == 0, i + 1 == |files|))
  }

  /** The merged stream. */
  function Merged(files: seq<seq<Piece>>): string {
    Flat(Contributions(files))
  }

  /** The tuples of the first n files, in Burrow order. */
  function AllTuplesOf(files: seq<seq<Piece>>, n: nat): seq<Piece>
    requires n <= |files| && Long(files)
  {
    if n == 0 then [] else AllTuplesOf(files, n - 1) + Tuples(files[n - 1])
  }

  lemma {:induction false} DataAppend(a: seq<Piece>, b: seq<Piece>)
    ensures Data(a + b, PieceData) == Data(a, PieceData) + Data(b, PieceData)
  {
    if a == [] {
      assert a + b == b;
    } else {
      assert (a + b)[1..] == a[1..] + b;
      DataAppend(a[1..], b);
    }
  }

  predicate WholeFiles(files: seq<seq<Piece>>) {
    Long(files) && forall i :: 0 <= i < |files| ==> WholeFile(files[i])
  }

  predicate Long(files: seq<seq<Piece>>) {
    forall i :: 0 <= i < |files| ==> |files[i]| >= 2
  }

  function TrailerOf(file: seq<Piece>): string
    requires |file| >= 2
  {
    file[|file| - 1].data
  }

  /** The tuple bytes of each file. */
  function Inners(files: seq<seq<Piece>>): (ts: seq<string>)
    requires Long(files)
    ensures |ts| == |files|
  {
    seq(|files|, i requires 0 <= i < |files| => Data(Tuples(files[i]), PieceData))
  }

  lemma {:induction false} InnersAreTuples(files: seq<seq<Piece>>, n: nat)
    requires n <= |files| && Long(files)
    ensures Data(AllTuplesOf(files, n), PieceData) == Flat(Inners(files)[..n])
  {
    if n > 0 {
      InnersAreTuples(files, n - 1);
      DataAppend(AllTuplesOf(files, n - 1), Tuples(files[n - 1]));
      assert Inners(files)[..n][..n - 1] == Inners(files)[..n - 1];
    }
  }

  lemma Joins(header: string, before: string, tuples: string, trailer: string)
    ensures "" + (header + (tuples + trailer)) == header + (("" + tuples) + trailer)
    ensures (header + (before + "")) + ("" + (tuples + trailer)) == header + ((before + tuples) + trailer)
  {
  }

  /** Contributions with the header only in the first and the trailer only in the last. */
  predicate Framed(cs: seq<string>, ts: seq<string>, header: string, trailer: string) {
    |cs| == |ts| && forall i :: 0 <= i < |cs| ==>
      cs[i] == (if i == 0 then header else "") + (ts[i] + (if i == |cs| - 1 then trailer else ""))
  }

  lemma {:induction false} FramedJoins(cs: seq<string>, ts: seq<string>, header: string, trailer: string, n: nat)
    requires Framed(cs, ts, header, trailer) && 0 < n <= |cs|
    ensures Flat(cs[..n]) == header + (Flat(ts[..n]) + (if n == |cs| then trailer else ""))
  {
    var tail := if n == |cs| then trailer else "";
    assert cs[..n][..n - 1] == cs[..n - 1] && ts[..n][..n - 1] == ts[..n - 1];
    if n == 1 {
      Joins(header, "", ts[0], tail);
    } else {
      FramedJoins(cs, ts, header, trailer, n - 1);
      Joins(header, Flat(ts[..n - 1]), ts[n - 1], tail);
    }
  }

  lemma FilesFramed(files: seq<seq<Piece>>)
    requires WholeFiles(files) && files != []
    ensures Framed(Contributions(files), Inners(files), files[0][0].data, TrailerOf(files[|files| - 1]))
  {
    forall i | 0 <= i < |files|
      ensures Contributions(files)[i] == (if i == 0 then files[0][0].data else "")
        + (Inners(files)[i] + (if i == |files| - 1 then TrailerOf(files[|files| - 1]) else ""))
    {
      FileContributes(files[i], i == 0, i + 1 == |files|);
    }
  }

  lemma {:induction false} AllTuplesGood(files: seq<seq<Piece>>, n: nat)
    requires WholeFiles(files) && n <= |files|
    ensures forall i :: 0 <= i < |AllTuplesOf(files, n)| ==> AllTuplesOf(files, n)[i].Tuple? && Good(AllTuplesOf(files, n)[i])
  {
    if n > 0 {
      AllTuplesGood(files, n - 1);
      TuplesGood(files[n - 1]);
    }
  }

  lemma TuplesGood(file: seq<Piece>)
    requires WholeFile(file)
    ensures forall i :: 0 <= i < |Tuples(file)| ==> Tuples(file)[i].Tuple? && Good(Tuples(file)[i])
  {
    forall i | 0 <= i < |Tuples(file)| ensures Tuples(file)[i].Tuple? && Good(Tuples(file)[i]) {
      assert IsTupleAt(file, i + 1);
    }
  }

  /** The file the merge produces: the first header, every tuple in Burrow order, one trailer. */
  function MergedFile(files: seq<seq<Piece>>): seq<Piece>
    requires Long(files) && files != []
  {
    var final := files[|files| - 1];
    [files[0][0]] + AllTuplesOf(files, |files|) + [final[|final| - 1]]
  }

  lemma MergedFileIsWhole(files: seq<seq<Piece>>)
    requires WholeFiles(files) && files != []
    ensures WholeFile(MergedFile(files))
  {
    AllTuplesGood(files, |files|);
    var merged, tuples := MergedFile(files), AllTuplesOf(files, |files|);
    assert WholeFile(files[0]) && WholeFile(files[|files| - 1]);
    forall i | 0 < i < |merged| - 1 ensures IsTupleAt(merged, i) {
      assert merged[i] == tuples[i - 1];
    }
  }

  lemma Enclosed(header: Piece, tuples: seq<Piece>, trailer: Piece)
    ensures Data([header] + tuples + [trailer], PieceData) == header.data + (Data(tuples, PieceData) + trailer.data)
  {
    DataAppend([header] + tuples, [trailer]);
    DataAppend([header], tuples);
    assert [header][1..] == [] && [trailer][1..] == [];
    assert Data([header], PieceData) == header.data + "" == header.data;
    assert Data([trailer], PieceData) == trailer.data + "" == trailer.data;
    assert (header.data + Data(tuples, PieceData)) + trailer.data == header.data + (Data(tuples, PieceData) + trailer.data);
  }

  lemma MergedFileData(files: seq<seq<Piece>>)
    requires Long(files) && files != []
    ensures Data(MergedFile(files), PieceData) == files[0][0].data + (Flat(Inners(files)) + TrailerOf(files[|files| - 1]))
  {
    var n := |files|;
    var final := files[n - 1];
    var header, trailer, tuples := files[0][0], final[|final| - 1], AllTuplesOf(files, n);
    assert MergedFile(files) == [header] + tuples + [trailer];
    Enclosed(header, tuples, trailer);
    InnersAreTuples(files, n);
    assert Inners(files)[..n] == Inners(files);
  }

  /** Merging complete files gives one complete file: the first header, all tuples in Burrow order, one
      trailer. */
  lemma MergeIsOneFile(files: seq<seq<Piece>>)
    requires WholeFiles(files) && files != []
    ensures Merged(files) == Data(MergedFile(files), PieceData)
    ensures WholeFile(MergedFile(files))
    ensures Drain(Reader, Unseen, Data(MergedFile(files), PieceData)) == Drained(MergedFile(files), "", Seen(true, true), true)
  {
    MergedBytes(files);
    MergedFileData(files);
    MergedFileIsWhole(files);
    WholeFileReads(MergedFile(files));
  }

  lemma MergedBytes(files: seq<seq<Piece>>)
    requires WholeFiles(files) && files != []
    ensures Merged(files) == files[0][0].data + (Flat(Inners(files)) + TrailerOf(files[|files| - 1]))
  {
    var cs, ts := Contributions(files), Inners(files);
    FilesFramed(files);
    FramedJoins(cs, ts, files[0][0].data, TrailerOf(files[|files| - 1]), |files|);
    assert cs[..|files|] == cs && ts[..|files|] == ts;
  }

  // ------------------------------------------------------------------------------- the stream

  /** What a delimited stream passes on: everything, or everything after its header record. */
  function PassedOn(bytes: string, stripped: bool, o: Options): string {
    if !stripped then bytes
    else if RecordEnd(bytes, o).end == 0 then ""
    else bytes[RecordEnd(bytes, o).end..]
  }

  lemma PassedOnMore(bytes: string, data: string, o: Options)
    requires RecordEnd(bytes, o).end > 0
    ensures PassedOn(bytes + data, true, o) == PassedOn(bytes, true, o) + data
  {
    RecordEndStable(bytes, data, o);
    var end := RecordEnd(bytes, o).end;
    assert (bytes + data)[end..] == bytes[end..] + data;
  }

  lemma ContributionSnoc(pieces: seq<Piece>, p: Piece, first: bool, last: bool)
    ensures Contribution(pieces + [p], first, last)
      == Contribution(pieces, first, last) + (if Kept(p, first, last) then p.data else "")
  {
    ContributionAppend(pieces, [p], first, last);
    assert [p][1..] == [];
    assert Contribution([p], first, last) == (if Kept(p, first, last) then p.data else "") + "";
  }

  function KeptParts(parts: seq<string>, p: Piece, first: bool, last: bool): seq<string> {
    if Kept(p, first, last) then parts + [p.data] else parts
  }

  lemma FlatKept(parts: seq<string>, pieces: seq<Piece>, p: Piece, first: bool, last: bool)
    requires Flat(parts) == Contribution(pieces, first, last)
    ensures Flat(KeptParts(parts, p, first, last)) == Contribution(pieces + [p], first, last)
  {
    ContributionSnoc(pieces, p, first, last);
    if Kept(p, first, last) {
      assert (parts + [p.data])[..|parts|] == parts;
    } else {
      assert Flat(parts) + "" == Flat(parts);
    }
  }

  predicate TookOut(
      outcome: Outcome<Seen, Piece>, before: Seen, was: string, piece: Option<Piece>, ok: bool, after: Seen,
      rest: string) {
    match outcome
    case More => ok && piece == None && after == before && rest == was
    case Fail => !ok
    case Emit(p, n, next) => ok && piece == Some(p) && after == next && 0 < n <= |was| && rest == was[n..]
  }

  lemma AfterPiece(pieces: seq<Piece>, p: Piece, d: Drained<Seen, Piece>)
    ensures After(pieces, After([p], d)) == After(pieces + [p], d)
    ensures After([], d) == d
  {
    assert pieces + ([p] + d.chunks) == (pieces + [p]) + d.chunks;
    assert [] + d.chunks == d.chunks;
  }

  /** What was read so far does not depend on the cuts, and nothing more can be taken off the rest. */
  lemma ReadSoFar(pieces: seq<string>)
    requires Written(Reader, Unseen, pieces, MaxRowBytes).ok
    ensures var w := Written(Reader, Unseen, pieces, MaxRowBytes);
      Drain(Reader, Unseen, Bytes(pieces)) == w && Drain(Reader, w.state, w.rest) == Drained([], w.rest, w.state, true)
  {
    ReaderSound();
    CutIndependent(Reader, Unseen, pieces, MaxRowBytes);
    DrainedDry(Reader, Unseen, Bytes(pieces));
  }

  class OutputStream {
    const options: Options
    const stripsHeader: bool
    const first: bool
    const last: bool
    var headerPending: bool
    var binaryHeader: bool
    var binaryTrailer: bool
    var buffer: string
    ghost var pieces: seq<string>  // what came in
    ghost var found: seq<Piece>  // the binary parts taken off it
    ghost var out: string  // and what was passed on

    /** Stream number index of count. */
    constructor (o: Options, header: bool, index: nat, count: nat)
      ensures options == o && first == (index == 0) && last == (index + 1 == count)
      ensures stripsHeader == (o.format == CsvFormat && header && index > 0)
      ensures Valid() && pieces == [] && out == ""
    {
      options, first, last := o, index == 0, index + 1 == count;
      stripsHeader := o.format == CsvFormat && header && index > 0;
      headerPending := o.format == CsvFormat && header && index > 0;
      binaryHeader, binaryTrailer, buffer := false, false, "";
      pieces, found, out := [], [], "";
    }

    function Now(): Seen
      reads this
    {
      Seen(binaryHeader, binaryTrailer)
    }

    /** What was passed on is determined by the bytes received so far, not by how they were cut. */
    ghost predicate Valid()
      reads this
    {
      if options.format == BinaryFormat then
        && Written(Reader, Unseen, pieces, MaxRowBytes) == Drained(found, buffer, Now(), true)
        && out == Contribution(found, first, last)
      else
        && out == PassedOn(Bytes(pieces), stripsHeader, options)
        && (headerPending ==> stripsHeader && buffer == Bytes(pieces) && RecordEnd(buffer, options).end == 0)
        && (!headerPending ==> buffer == "" && (stripsHeader ==> RecordEnd(Bytes(pieces), options).end > 0))
    }

    method TakeHeader() returns (piece: Option<Piece>, ok: bool)
      requires !binaryHeader
      modifies this`buffer, this`binaryHeader
      ensures TookOut(OutNext(old(Now()), old(buffer)), old(Now()), old(buffer), piece, ok, Now(), buffer)
    {
      if |buffer| < 19 {
        return None, true;
      }
      if buffer[..11] != Signature {
        return None, false;
      }
      var extension := U32(buffer, 15);
      if extension > MaxRowBytes {
        return None, false;
      }
      if |buffer| < 19 + extension {
        return None, true;
      }
      piece, ok := Some(Header(buffer[..19 + extension])), true;
      buffer, binaryHeader := buffer[19 + extension..], true;
    }

    method TakeTuple() returns (piece: Option<Piece>, ok: bool)
      requires binaryHeader && !binaryTrailer && |buffer| >= 2
      modifies this`buffer, this`binaryTrailer
      ensures TookOut(OutNext(old(Now()), old(buffer)), old(Now()), old(buffer), piece, ok, Now(), buffer)
    {
      var columns := I16(buffer, 0);
      if columns == -1 {
        piece, ok := Some(Trailer(buffer[..2])), true;
        buffer, binaryTrailer := buffer[2..], true;
        return;
      }
      if columns < 0 {
        return None, false;
      }
      var tuple := ScanTuple(buffer, columns);
      if tuple.Bad? {
        return None, false;
      }
      if tuple.Incomplete? {
        return None, true;
      }
      piece, ok := Some(Tuple(buffer[..tuple.end])), true;
      buffer := buffer[tuple.end..];
    }

    method ConsumeBinaryOutput() returns (parts: seq<string>, ghost taken: seq<Piece>, ok: bool)
      modifies this`buffer, this`binaryHeader, this`binaryTrailer
      ensures ok == Drain(Reader, old(Now()), old(buffer)).ok
      ensures ok ==> Drained(taken, buffer, Now(), true) == Drain(Reader, old(Now()), old(buffer))
      ensures ok ==> Flat(parts) == Contribution(taken, first, last)
    {
      parts, taken := [], [];
      var piece: Option<Piece>;
      DrainOut(Now(), buffer);
      if !binaryHeader {
        piece, ok := TakeHeader();
        if !ok || piece.None? {
          return [], [], ok;
        }
        FlatKept(parts, taken, piece.value, first, last);
        AfterPiece([], piece.value, Drain(Reader, Now(), buffer));
        parts, taken := KeptParts(parts, piece.value, first, last), taken + [piece.value];
      } else {
        AfterPiece([], Trailer(""), Drain(Reader, Now(), buffer));
      }
      parts, taken, ok := ConsumeTuples(parts, taken, Drain(Reader, old(Now()), old(buffer)));
    }

    method ConsumeTuples(before: seq<string>, ghost found: seq<Piece>, ghost whole: Drained<Seen, Piece>)
      returns (parts: seq<string>, ghost taken: seq<Piece>, ok: bool)
      requires binaryHeader && After(found, Drain(Reader, Now(), buffer)) == whole
      requires Flat(before) == Contribution(found, first, last)
      modifies this`buffer, this`binaryTrailer
      ensures ok == whole.ok
      ensures ok ==> Drained(taken, buffer, Now(), true) == whole && Flat(parts) == Contribution(taken, first, last)
    {
      parts, taken := before, found;
      while |buffer| >= 2 && !binaryTrailer
        invariant After(taken, Drain(Reader, Now(), buffer)) == whole
        invariant Flat(parts) == Contribution(taken, first, last)
        decreases |buffer|
      {
        DrainOut(Now(), buffer);
        var piece;
        piece, ok := TakeTuple();
        if !ok {
          return [], [], false;
        }
        if piece.None? {
          break;
        }
        FlatKept(parts, taken, piece.value, first, last);
        AfterPiece(taken, piece.value, Drain(Reader, Now(), buffer));
        parts, taken := KeptParts(parts, piece.value, first, last), taken + [piece.value];
      }
      DrainOut(Now(), buffer);
      if binaryTrailer && |buffer| != 0 {
        return [], [], false;
      }
      ok := true;
      assert taken + [] == taken;
    }

    method WriteBinary(data: string) returns (parts: seq<string>, ok: bool)
      requires Valid() && options.format == BinaryFormat && data != ""
      modifies this
      ensures ok == Written(Reader, Unseen, old(pieces) + [data], MaxRowBytes).ok
      ensures ok ==> Valid() && pieces == old(pieces) + [data] && out == old(out) + Flat(parts)
    {
      assert (pieces + [data])[..|pieces|] == pieces;
      pieces := pieces + [data];
      buffer := buffer + data;
      ghost var taken: seq<Piece>;
      parts, taken, ok := ConsumeBinaryOutput();
      if !ok {
        return [], false;
      }
      if |buffer| > MaxRowBytes {
        return [], false;
      }
      ContributionAppend(found, taken, first, last);
      found, out := found + taken, out + Flat(parts);
    }

    method WriteDelimited(data: string) returns (parts: seq<string>, ok: bool)
      requires Valid() && options.format != BinaryFormat && data != ""
      modifies this
      ensures !old(headerPending) ==> ok
      ensures ok ==> Valid() && pieces == old(pieces) + [data] && out == old(out) + Flat(parts)
    {
      ghost var before := Bytes(pieces);
      assert (pieces + [data])[..|pieces|] == pieces;
      pieces := pieces + [data];
      if !headerPending {
        if stripsHeader {
          PassedOnMore(before, data, options);
        }
        parts, ok := [data], true;
        assert Flat(parts) == "" + data;
        out := out + data;
        return;
      }
      buffer := buffer + data;
      var end, quoted := DelimitedRecordEnd(buffer, options);
      if end == 0 {
        if quoted && |buffer| > MaxRowBytes {
          return [], false;
        }
        assert out + "" == out;
        return [], true;
      }
      headerPending := false;
      var remainder := buffer[end..];
      buffer, out := "", remainder;
      if |remainder| == 0 {
        return [], true;
      }
      parts, ok := [remainder], true;
      assert Flat(parts) == "" + remainder;
    }

    /** Takes some of a Burrow's bytes in and gives what is to be passed on. */
    method Write(data: string) returns (parts: seq<string>, ok: bool)
      requires Valid()
      modifies this
      ensures ok ==> Valid() && Bytes(pieces) == Bytes(old(pieces)) + data && out == old(out) + Flat(parts)
    {
      if |data| == 0 {
        assert Bytes(pieces) + "" == Bytes(pieces) && out + "" == out;
        return [], true;
      }
      assert (pieces + [data])[..|pieces|] == pieces;
      if options.format == BinaryFormat {
        parts, ok := WriteBinary(data);
      } else {
        parts, ok := WriteDelimited(data);
      }
    }

    /** Ends the stream.  On success a binary stream was one whole file and contributed what its parts
        call for; a delimited one passed on all but its header. */
    method Finish() returns (parts: seq<string>, ok: bool)
      requires Valid()
      modifies this`buffer, this`binaryHeader, this`binaryTrailer
      ensures ok ==> Flat(parts) == ""
      ensures ok && options.format == BinaryFormat ==>
        Drain(Reader, Unseen, Bytes(pieces)) == Drained(found, "", Seen(true, true), true) && out == Contribution(found, first, last)
      ensures ok && options.format != BinaryFormat ==> out == PassedOn(Bytes(pieces), stripsHeader, options)
      ensures options.format != BinaryFormat ==> ok == !headerPending
    {
      if options.format != BinaryFormat {
        return [], !headerPending;
      }
      ReadSoFar(pieces);
      ghost var taken: seq<Piece>;
      parts, taken, ok := ConsumeBinaryOutput();
      if !ok || |buffer| != 0 || !binaryHeader || !binaryTrailer {
        return [], false;
      }
    }
  }

  // ------------------------------------------------------------------------------ all streams

  lemma {:induction false} FlatAppend(a: seq<string>, b: seq<string>)
    ensures Flat(a + b) == Flat(a) + Flat(b)
  {
    if b == [] {
      assert a + b == a && Flat(a) + "" == Flat(a);
    } else {
      var init, last := b[..|b| - 1], b[|b| - 1];
      assert (a + b)[..|a + b| - 1] == a + init && (a + b)[|a + b| - 1] == last;
      FlatAppend(a, init);
      assert (Flat(a) + Flat(init)) + last == Flat(a) + (Flat(init) + last);
    }
  }

  lemma OneMoreSent(sent: seq<string>, parts: seq<string>, outputs: seq<string>, i: nat)
    requires i < |outputs| && Flat(sent) == Flat(outputs[..i]) && Flat(parts) == outputs[i]
    ensures Flat(sent + parts) == Flat(outputs[..i + 1])
  {
    FlatAppend(sent, parts);
    assert outputs[..i + 1][..i] == outputs[..i];
  }

  /** The parts of a Burrow's binary stream. */
  function FileOf(stream: seq<string>): seq<Piece> {
    Drain(Reader, Unseen, Bytes(stream)).chunks
  }

  predicate EndsWell(stream: seq<string>) {
    var d := Drain(Reader, Unseen, Bytes(stream));
    d.ok && d.rest == "" && d.state == Seen(true, true)
  }

  /** What the stream of one Burrow contributes to the output. */
  function StreamOutput(o: Options, header: bool, index: nat, count: nat, stream: seq<string>): string {
    if o.format == BinaryFormat then Contribution(FileOf(stream), index == 0, index + 1 == count)
    else PassedOn(Bytes(stream), o.format == CsvFormat && header && index > 0, o)
  }

  method CopyOne(o: Options, header: bool, index: nat, count: nat, stream: seq<string>)
    returns (parts: seq<string>, ok: bool)
    ensures ok ==> Flat(parts) == StreamOutput(o, header, index, count, stream)
    ensures ok && o.format == BinaryFormat ==> EndsWell(stream)
  {
    var output := new OutputStream(o, header, index, count);
    var i := 0;
    parts := [];
    while i < |stream|
      invariant i <= |stream| && output.Valid() && fresh(output)
      invariant Bytes(output.pieces) == Bytes(stream[..i]) && Flat(parts) == output.out
    {
      assert stream[..i + 1][..i] == stream[..i];
      var more;
      more, ok := output.Write(stream[i]);
      if !ok {
        return parts, false;
      }
      FlatAppend(parts, more);
      parts, i := parts + more, i + 1;
    }
    assert stream[..i] == stream;
    var more;
    more, ok := output.Finish();
    if ok {
      FlatAppend(parts, more);
      assert Flat(parts) + "" == Flat(parts);
      parts := parts + more;
    }
  }

  function Outputs(o: Options, header: bool, streams: seq<seq<string>>): (outputs: seq<string>)
    ensures |outputs| == |streams|
  {
    seq(|streams|, i requires 0 <= i < |streams| => StreamOutput(o, header, i, |streams|, streams[i]))
  }

  /** Each stream is a whole file, and the output is the whole file that merging them makes. */
  predicate OneFile(streams: seq<seq<string>>, output: string)
    requires streams != []
  {
    var files := Files(streams);
    && WholeFiles(files) && (forall i :: 0 <= i < |files| ==> Data(files[i], PieceData) == Bytes(streams[i]))
    && WholeFile(MergedFile(files)) && output == Data(MergedFile(files), PieceData)
  }

  /** handleCopyOut: one Burrow's stream after the other, each however it was cut.  On success a binary output
      is one whole file of all tuples in Burrow order; a delimited one is each stream without the header of
      all but the first. */
  method CopyOut(o: Options, header: bool, streams: seq<seq<string>>) returns (sent: seq<string>, ok: bool)
    ensures ok ==> Flat(sent) == Flat(Outputs(o, header, streams))
    ensures ok && o.format == BinaryFormat && streams != [] ==> OneFile(streams, Flat(sent))
  {
    sent, ok := CopyEach(o, header, streams, Outputs(o, header, streams));
    if ok && o.format == BinaryFormat && streams != [] {
      WholeOutputs(o, header, streams);
    }
  }

  ghost predicate AllEndWell(streams: seq<seq<string>>, n: nat) {
    n <= |streams| && forall i :: 0 <= i < n ==> EndsWell(streams[i])
  }

  method CopyEach(o: Options, header: bool, streams: seq<seq<string>>, ghost outputs: seq<string>)
    returns (sent: seq<string>, ok: bool)
    requires |outputs| == |streams|
    requires forall i :: 0 <= i < |streams| ==> outputs[i] == StreamOutput(o, header, i, |streams|, streams[i])
    ensures ok ==> Flat(sent) == Flat(outputs)
    ensures ok && o.format == BinaryFormat ==> AllEndWell(streams, |streams|)
  {
    var i := 0;
    sent := [];
    while i < |streams|
      invariant i <= |streams| && Flat(sent) == Flat(outputs[..i])
      invariant o.format == BinaryFormat ==> AllEndWell(streams, i)
    {
      var parts;
      parts, ok := CopyOne(o, header, i, |streams|, streams[i]);
      if !ok {
        return sent, false;
      }
      OneMoreSent(sent, parts, outputs, i);
      sent, i := sent + parts, i + 1;
    }
    assert outputs[..i] == outputs;
    ok := true;
  }

  function Files(streams: seq<seq<string>>): (files: seq<seq<Piece>>)
    ensures |files| == |streams| && forall i :: 0 <= i < |files| ==> files[i] == FileOf(streams[i])
  {
    seq(|streams|, i requires 0 <= i < |streams| => FileOf(streams[i]))
  }

  /** Binary streams that all end well are whole files, and their outputs make one. */
  lemma WholeOutputs(o: Options, header: bool, streams: seq<seq<string>>)
    requires o.format == BinaryFormat && streams != [] && forall i :: 0 <= i < |streams| ==> EndsWell(streams[i])
    ensures OneFile(streams, Flat(Outputs(o, header, streams)))
  {
    var files := Files(streams);
    forall i | 0 <= i < |files| ensures WholeFile(files[i]) && Data(files[i], PieceData) == Bytes(streams[i]) {
      EndedWellIsWhole(Bytes(streams[i]));
    }
    MergeIsOneFile(files);
    assert Outputs(o, header, streams) == Contributions(files);
  }
}
