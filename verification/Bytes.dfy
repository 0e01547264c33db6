/** Byte strings, and the left fold shared by the incremental decoders. */
module Bytes {

  type byte = x: int | 0 <= x < 256

  type bytes = seq<byte>

  /** The concatenation of the chunks in which a stream happens to arrive. */
  function Flatten<T>(chunks: seq<seq<T>>): seq<T>
  {
    if chunks == [] then [] else chunks[0] + Flatten(chunks[1..])
  }

  /** The state after consuming `xs` one element at a time. */
  function Fold<S, I>(step: (S, I) -> S, s: S, xs: seq<I>): S
    decreases |xs|
  {
    if xs == [] then s else Fold(step, step(s, xs[0]), xs[1..])
  }

  /** The state after one read per chunk. */
  function FoldEach<S, I>(step: (S, I) -> S, s: S, chunks: seq<seq<I>>): S
    decreases |chunks|
  {
    if chunks == [] then s else FoldEach(step, Fold(step, s, chunks[0]), chunks[1..])
  }

  lemma {:induction false} FoldAppend<S, I>(step: (S, I) -> S, s: S, xs: seq<I>, ys: seq<I>)
    ensures Fold(step, s, xs + ys) == Fold(step, Fold(step, s, xs), ys)
    decreases |xs|
  {
    if xs == [] {
      assert xs + ys == ys;
    } else {
      assert (xs + ys)[1..] == xs[1..] + ys;
      FoldAppend(step, step(s, xs[0]), xs[1..], ys);
    }
  }

  lemma {:induction false} FoldSnoc<S, I>(step: (S, I) -> S, s: S, xs: seq<I>, x: I)
    ensures Fold(step, s, xs + [x]) == step(Fold(step, s, xs), x)
  {
    FoldAppend(step, s, xs, [x]);
    assert [x][1..] == [];
  }

  lemma FoldOne<S, I>(step: (S, I) -> S, s: S, a: I)
    ensures Fold(step, s, [a]) == step(s, a)
  {
    assert [a][1..] == [];
  }

  lemma FoldTwo<S, I>(step: (S, I) -> S, s: S, a: I, b: I)
    ensures Fold(step, s, [a, b]) == step(step(s, a), b)
  {
    assert [a, b][1..] == [b];
    FoldOne(step, step(s, a), b);
  }

  /** An incremental decoder cannot see chunk boundaries. */
  lemma {:induction false} FoldChunks<S, I>(step: (S, I) -> S, s: S, chunks: seq<seq<I>>)
    ensures FoldEach(step, s, chunks) == Fold(step, s, Flatten(chunks))
    decreases |chunks|
  {
    if chunks != [] {
      FoldAppend(step, s, chunks[0], Flatten(chunks[1..]));
      FoldChunks(step, Fold(step, s, chunks[0]), chunks[1..]);
    }
  }
}
