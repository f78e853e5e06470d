/** Incremental splitting of a byte stream into chunks, independent of how the bytes arrive. */
module Splitter {

  /** What a parser finds at the front of its buffer: too few bytes, an error, or a chunk of n bytes. */
  datatype Outcome<S, C> = More | Fail | Emit(chunk: C, n: nat, next: S)

  datatype Drained<S, C> = Drained(chunks: seq<C>, rest: string, state: S, ok: bool)

  /** Takes chunks off the buffer for as long as there are any. */
  function Drain<S, C>(next: (S, string) -> Outcome<S, C>, state: S, buffer: string): (d: Drained<S, C>)
    decreases |buffer|
  {
    match next(state, buffer)
    case More => Drained([], buffer, state, true)
    case Fail => Drained([], buffer, state, false)
    case Emit(chunk, n, state') =>
      if !(0 < n <= |buffer|) then Drained([], buffer, state, false) else
        var d := Drain(next, state', buffer[n..]);
        d.(chunks := [chunk] + d.chunks)
  }

  /** A chunk or an error once found does not depend on what follows in the buffer. */
  ghost predicate Stable<S(!new), C>(next: (S, string) -> Outcome<S, C>) {
    forall state, a, b :: !next(state, a).More? ==> next(state, a + b) == next(state, a)
  }

  ghost predicate Progress<S(!new), C>(next: (S, string) -> Outcome<S, C>) {
    forall state, a :: next(state, a).Emit? ==> 0 < next(state, a).n <= |a|
  }

  function After<S, C>(chunks: seq<C>, d: Drained<S, C>): Drained<S, C> {
    d.(chunks := chunks + d.chunks)
  }

  lemma AfterBoth<S, C>(chunk: C, chunks: seq<C>, d: Drained<S, C>)
    ensures After([chunk], After(chunks, d)) == After([chunk] + chunks, d)
  {
    assert [chunk] + (chunks + d.chunks) == ([chunk] + chunks) + d.chunks;
  }

  lemma DrainEmit<S, C>(next: (S, string) -> Outcome<S, C>, state: S, buffer: string, rest: string)
    requires next(state, buffer).Emit? && 0 < next(state, buffer).n <= |buffer| && rest == buffer[next(state, buffer).n..]
    ensures Drain(next, state, buffer) == After([next(state, buffer).chunk], Drain(next, next(state, buffer).next, rest))
  {
  }

  lemma StableAt<S(!new), C>(next: (S, string) -> Outcome<S, C>, state: S, a: string, b: string)
    requires Stable(next) && Progress(next) && next(state, a).Emit?
    ensures next(state, a + b) == next(state, a) && 0 < next(state, a).n <= |a|
    ensures (a + b)[next(state, a).n..] == a[next(state, a).n..] + b
  {
    assert !next(state, a).More?;
    assert next(state, a + b) == next(state, a);
    var n := next(state, a).n;
    assert 0 < n <= |a|;
    assert (a + b)[n..] == a[n..] + b;
  }

  /** Draining a longer buffer drains the first part and then carries on with what was left of it. */
  lemma {:induction false} DrainAppend<S(!new), C>(next: (S, string) -> Outcome<S, C>, state: S, a: string, b: string)
    requires Stable(next) && Progress(next) && Drain(next, state, a).ok
    ensures var d := Drain(next, state, a);
      Drain(next, state, a + b) == After(d.chunks, Drain(next, d.state, d.rest + b))
    decreases |a|
  {
    var found := next(state, a);
    if found.Emit? {
      var rest := a[found.n..];
      StableAt(next, state, a, b);
      DrainEmit(next, state, a, rest);
      DrainEmit(next, state, a + b, rest + b);
      DrainAppend(next, found.next, rest, b);
      var d := Drain(next, found.next, rest);
      AfterBoth(found.chunk, d.chunks, Drain(next, d.state, d.rest + b));
    }
  }

  /** Nothing is left to take after a drain. */
  lemma {:induction false} DrainedDry<S, C>(next: (S, string) -> Outcome<S, C>, state: S, buffer: string)
    requires Drain(next, state, buffer).ok
    ensures next(Drain(next, state, buffer).state, Drain(next, state, buffer).rest).More?
    decreases |buffer|
  {
    match next(state, buffer) {
      case More =>
      case Emit(_, n, state') => DrainedDry(next, state', buffer[n..]);
    }
  }

  function Bytes(pieces: seq<string>): string {
    if pieces == [] then "" else Bytes(pieces[..|pieces| - 1]) + pieces[|pieces| - 1]
  }

  /** The chunks and the state after writing the pieces one by one, each within the buffer limit. */
  function Written<S, C>(
      next: (S, string) -> Outcome<S, C>, start: S, pieces: seq<string>, limit: nat): Drained<S, C> {
    if pieces == [] then
      Drained([], "", start, true)
    else
      var before := Written(next, start, pieces[..|pieces| - 1], limit);
      var piece := pieces[|pieces| - 1];
      if !before.ok then
        before
      else if piece == "" then
        before
      else
        var d := Drain(next, before.state, before.rest + piece);
        Drained(before.chunks + d.chunks, d.rest, d.state, d.ok && |d.rest| <= limit)
  }

  /** However the bytes are cut, successful writes produce what one write of all of them produces. */
  lemma {:induction false} CutIndependent<S(!new), C>(next: (S, string) -> Outcome<S, C>, start: S, pieces: seq<string>, limit: nat)
    requires Stable(next) && Progress(next) && next(start, "").More?
    requires Written(next, start, pieces, limit).ok
    ensures Written(next, start, pieces, limit) == Drain(next, start, Bytes(pieces))
    ensures |Written(next, start, pieces, limit).rest| <= limit
  {
    if pieces != [] {
      var init, piece := pieces[..|pieces| - 1], pieces[|pieces| - 1];
      CutIndependent(next, start, init, limit);
      var before := Written(next, start, init, limit);
      if piece == "" {
        assert Bytes(pieces) == Bytes(init);
      } else {
        DrainAppend(next, start, Bytes(init), piece);
      }
    }
  }

  /** In particular one write of everything succeeds, with the same chunks and the same rest. */
  lemma OneWrite<S(!new), C>(next: (S, string) -> Outcome<S, C>, start: S, pieces: seq<string>, limit: nat)
    requires Stable(next) && Progress(next) && next(start, "").More?
    requires Written(next, start, pieces, limit).ok
    ensures Written(next, start, [Bytes(pieces)], limit) == Written(next, start, pieces, limit)
  {
    CutIndependent(next, start, pieces, limit);
    var all := Bytes(pieces);
    assert [all][..0] == [] && "" + all == all;
    var d := Drain(next, start, all);
    assert [] + d.chunks == d.chunks;
  }

  // ------------------------------------------------------------------------------ conservation

  function Data<C>(chunks: seq<C>, data: C -> string): string {
    if chunks == [] then "" else data(chunks[0]) + Data(chunks[1..], data)
  }

  /** Each chunk carries the bytes it was cut from. */
  ghost predicate Conserves<S(!new), C>(next: (S, string) -> Outcome<S, C>, data: C -> string) {
    forall state, a :: next(state, a).Emit? && next(state, a).n <= |a| ==> data(next(state, a).chunk) == a[..next(state, a).n]
  }

  /** Chunks and rest make up the bytes drained. */
  lemma {:induction false} NothingLost<S(!new), C>(next: (S, string) -> Outcome<S, C>, data: C -> string, state: S, buffer: string)
    requires Conserves(next, data)
    ensures var d := Drain(next, state, buffer); Data(d.chunks, data) + d.rest == buffer
    decreases |buffer|
  {
    var found := next(state, buffer);
    if found.Emit? && 0 < found.n <= |buffer| {
      var rest := buffer[found.n..];
      DrainEmit(next, state, buffer, rest);
      NothingLost(next, data, found.next, rest);
      var d := Drain(next, found.next, rest);
      DataFirst(found.chunk, d.chunks, data);
      Rejoin(buffer, found.n, Data(d.chunks, data), d.rest);
    }
  }

  lemma DataFirst<C>(chunk: C, chunks: seq<C>, data: C -> string)
    ensures Data([chunk] + chunks, data) == data(chunk) + Data(chunks, data)
  {
    assert ([chunk] + chunks)[1..] == chunks;
  }

  lemma Rejoin(buffer: string, n: nat, middle: string, rest: string)
    requires n <= |buffer| && middle + rest == buffer[n..]
    ensures (buffer[..n] + middle) + rest == buffer
  {
    assert (buffer[..n] + middle) + rest == buffer[..n] + (middle + rest);
  }

  // ------------------------------------------------------------------------------- reading back

  /** In this state the chunk is recognised at the front of any buffer that starts with its bytes. */
  ghost predicate Reads<S, C>(next: (S, string) -> Outcome<S, C>, data: C -> string, state: S, chunk: C, after: S) {
    |data(chunk)| > 0 && forall rest: string :: next(state, data(chunk) + rest) == Emit(chunk, |data(chunk)|, after)
  }

  /** Chunks that are each recognised where they stand are read back from their bytes. */
  lemma {:induction false} ReadsBack<S, C>(
      next: (S, string) -> Outcome<S, C>, data: C -> string, chunks: seq<C>, states: seq<S>)
    requires |states| == |chunks| + 1
    requires forall i :: 0 <= i < |chunks| ==> Reads(next, data, states[i], chunks[i], states[i + 1])
    requires next(states[|chunks|], "").More?
    ensures Drain(next, states[0], Data(chunks, data)) == Drained(chunks, "", states[|chunks|], true)
    decreases |chunks|
  {
    if chunks != [] {
      var rest := Data(chunks[1..], data);
      assert Reads(next, data, states[0], chunks[0], states[1]);
      var buffer := data(chunks[0]) + rest;
      assert buffer[|data(chunks[0])|..] == rest;
      DrainEmit(next, states[0], buffer, rest);
      forall i | 0 <= i < |chunks| - 1 ensures Reads(next, data, states[1..][i], chunks[1..][i], states[1..][i + 1]) {
        assert Reads(next, data, states[i + 1], chunks[i + 1], states[i + 2]);
      }
      ReadsBack(next, data, chunks[1..], states[1..]);
      assert [chunks[0]] + chunks[1..] == chunks;
    }
  }
}
