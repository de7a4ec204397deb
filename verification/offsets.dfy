/** Offset ("bounds") arrays: entry i of a Text or List store spans the half-open range
    `bounds[i] .. bounds[i+1]` of the payload below it. */
module Offsets {

  /** `bounds` never decreases: each bound is at least the one before it. */
  ghost predicate Ascending(b: seq<nat>)
    decreases |b|
  {
    |b| <= 1 || (b[|b| - 2] <= b[|b| - 1] && Ascending(b[..|b| - 1]))
  }

  /** Any two bounds are in order, and none exceeds the last. */
  lemma {:induction false} AscendingAt(b: seq<nat>, i: nat, j: nat)
    requires Ascending(b) && i <= j < |b|
    ensures b[i] <= b[j] <= b[|b| - 1]
    decreases |b|
  {
    if i < |b| - 1 {
      var front := b[..|b| - 1];
      var j' := if j < |b| - 1 then j else |b| - 2;
      AscendingAt(front, i, j');
      AscendingAt(front, j', j');
    }
  }

  /** `bounds` is ascending and stays inside a payload of `n` elements. */
  ghost predicate Within(b: seq<nat>, n: nat) {
    Ascending(b) && (|b| > 0 ==> b[|b| - 1] <= n)
  }

  /** The entries delimited by `b` over the payload `xs`, each wrapped by `wrap`: one entry per
      pair of consecutive bounds, so none at all while `|b| <= 1`. */
  function Segments<T, V>(b: seq<nat>, xs: seq<T>, wrap: seq<T> -> V): (r: seq<V>)
    requires Within(b, |xs|)
    ensures |r| == if |b| == 0 then 0 else |b| - 1
    decreases |b|
  {
    if |b| <= 1 then []
    else Segments(b[..|b| - 1], xs, wrap) + [wrap(xs[b[|b| - 2]..b[|b| - 1]])]
  }

  /** Entry i is exactly the payload between bound i and bound i+1. */
  lemma {:induction false} SegmentAt<T, V>(b: seq<nat>, xs: seq<T>, wrap: seq<T> -> V, i: nat)
    requires Within(b, |xs|) && i + 1 < |b|
    ensures b[i] <= b[i + 1] <= |xs| && Segments(b, xs, wrap)[i] == wrap(xs[b[i]..b[i + 1]])
    decreases |b|
  {
    AscendingAt(b, i, i + 1);
    if i + 2 < |b| {
      var front := b[..|b| - 1];
      SegmentAt(front, xs, wrap, i);
    }
  }

  /** Payload past the last bound does not affect the entries. */
  lemma {:induction false} SegmentsExtend<T, V>(b: seq<nat>, xs: seq<T>, ys: seq<T>, wrap: seq<T> -> V)
    requires Within(b, |xs|)
    ensures Within(b, |xs + ys|)
    ensures Segments(b, xs + ys, wrap) == Segments(b, xs, wrap)
    decreases |b|
  {
    if |b| > 1 {
      var front := b[..|b| - 1];
      SegmentsExtend(front, xs, ys, wrap);
      var lo, hi := b[|b| - 2], b[|b| - 1];
      assert (xs + ys)[lo..hi] == xs[lo..hi];
    }
  }

  /** Appending a payload `ys` and its end offset appends exactly one entry, `wrap(ys)`,
      provided the bounds were non-empty and ended at the old payload length. */
  lemma SegmentsPush<T, V>(b: seq<nat>, xs: seq<T>, ys: seq<T>, wrap: seq<T> -> V)
    requires Within(b, |xs|) && |b| > 0 && b[|b| - 1] == |xs|
    ensures Within(b + [|xs + ys|], |xs + ys|)
    ensures Segments(b + [|xs + ys|], xs + ys, wrap) == Segments(b, xs, wrap) + [wrap(ys)]
  {
    var b' := b + [|xs + ys|];
    assert b'[..|b'| - 1] == b;
    SegmentsExtend(b, xs, ys, wrap);
    assert (xs + ys)[|xs|..|xs + ys|] == ys;
  }

  /** With empty bounds, a push only records the base offset: there is still no entry. */
  lemma SegmentsFirstPush<T, V>(xs: seq<T>, wrap: seq<T> -> V)
    ensures Within([|xs|], |xs|) && Segments([|xs|], xs, wrap) == []
  {
  }

  /** Dropping the last bound and the payload after the new last bound removes the last entry. */
  lemma SegmentsPop<T, V>(b: seq<nat>, xs: seq<T>, wrap: seq<T> -> V)
    requires Within(b, |xs|) && |b| > 1 && b[|b| - 1] == |xs|
    ensures var front := b[..|b| - 1];
      Within(front, front[|front| - 1]) && front[|front| - 1] <= |xs| &&
      Segments(b, xs, wrap) ==
        Segments(front, xs[..front[|front| - 1]], wrap) + [wrap(xs[front[|front| - 1]..])]
  {
    var front := b[..|b| - 1];
    var start := front[|front| - 1];
    assert xs == xs[..start] + xs[start..];
    SegmentsExtend(front, xs[..start], xs[start..], wrap);
    assert Segments(b, xs, wrap) == Segments(front, xs, wrap) + [wrap(xs[start..|xs|])];
    assert xs[start..|xs|] == xs[start..];
  }
}
