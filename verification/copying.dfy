/** `copy`, `push` and `copy_slice`, and what they do to a store's entries.

    A `copy` can panic only where a store asks a nested store for its `len()` and that
    `bounds.len() - 1` underflows; such a panic is the `None` result. */
module Copying {
  import opened Values
  import opened Offsets
  import opened Tags
  import opened Stores

  /** `copy(item)`, and `push(item)`, which the trait defines as `copy(&item)`. */
  function Copy(s: Store, v: Value): (r: Option<Store>)
    requires HasShape(v, ShapeOf(s))
    ensures r.Some? ==> ShapeOf(r.value) == ShapeOf(s)
    decreases ShapeOf(s), 0, 0
  {
    match s
    case PrimVec(xs, cap, w) => Some(PrimVec(xs + [v.n], Grown(cap, |xs| + 1), w))
    case UnitCount(n) => Some(UnitCount(n + 1))
    case ColumnString(b, bc, bytes, vc) =>
      // Append the bytes, then push the new byte count.
      var bytes' := bytes + v.bytes;
      Some(ColumnString(b + [|bytes'|], Grown(bc, |b| + 1), bytes', Grown(vc, |bytes'|)))
    case ColumnVec(b, bc, vals) =>
      // `copy_slice` the list into the nested store, then push its length.
      var r := CopySlice(vals, v.items);
      if r.None? || !LenDefined(r.value) then None
      else Some(ColumnVec(b + [Len(r.value)], Grown(bc, |b| + 1), r.value))
    case Tuple2(a, c) =>
      var ra, rc := Copy(a, v.v0), Copy(c, v.v1);
      if ra.None? || rc.None? then None else Some(Tuple2(ra.value, rc.value))
    case Tuple3(a, c, d) =>
      var ra, rc, rd := Copy(a, v.v0), Copy(c, v.v1), Copy(d, v.v2);
      if ra.None? || rc.None? || rd.None? then None
      else Some(Tuple3(ra.value, rc.value, rd.value))
    case ColumnResult(ix, cap, sS, tS) =>
      // Both variants push an `Ok` tag: `Err(y)` records `Ok(t_store.len())`.
      if v.Ok? then
        if !LenDefined(sS) then None
        else
          var r := Copy(sS, v.ok);
          if r.None? then None
          else Some(ColumnResult(ix + [OkAt(Len(sS))], Grown(cap, |ix| + 1), r.value, tS))
      else
        if !LenDefined(tS) then None
        else
          var r := Copy(tS, v.err);
          if r.None? then None
          else Some(ColumnResult(ix + [OkAt(Len(tS))], Grown(cap, |ix| + 1), sS, r.value))
    case ColumnOption(ix, cap, t) =>
      if v.Present? then
        if !LenDefined(t) then None
        else
          var r := Copy(t, v.inner);
          if r.None? then None
          else Some(ColumnOption(ix + [Some(Len(t))], Grown(cap, |ix| + 1), r.value))
      else Some(ColumnOption(ix + [None], Grown(cap, |ix| + 1), t))
  }

  /** `copy_slice(items)`: a `Vec` extends itself in one step and a `usize` adds the slice
      length; every other store takes the trait's default, one `copy` per item. */
  function CopySlice(s: Store, items: seq<Value>): (r: Option<Store>)
    requires AllHaveShape(items, ShapeOf(s))
    ensures r.Some? ==> ShapeOf(r.value) == ShapeOf(s)
    decreases ShapeOf(s), 2, 0
  {
    match s
    case PrimVec(xs, cap, w) =>
      assert forall x <- items :: x.Prim?;
      Some(PrimVec(xs + PrimsOf(items), Grown(cap, |xs| + |items|), w))
    case UnitCount(n) => Some(UnitCount(n + |items|))
    case _ => CopyEach(s, items)
  }

  /** The trait's default `copy_slice`: `copy` each item in order, stopping at a panic. */
  function CopyEach(s: Store, items: seq<Value>): (r: Option<Store>)
    requires AllHaveShape(items, ShapeOf(s))
    ensures r.Some? ==> ShapeOf(r.value) == ShapeOf(s)
    decreases ShapeOf(s), 1, |items|
  {
    if items == [] then Some(s)
    else
      var front := items[..|items| - 1];
      assert forall x <- front :: x in items;
      var r := CopyEach(s, front);
      if r.None? then None else Copy(r.value, items[|items| - 1])
  }

  /** A non-empty batch is copied by copying all but its last value, then the last one. */
  lemma CopyEachLast(s: Store, items: seq<Value>)
    requires items != [] && AllHaveShape(items, ShapeOf(s))
    ensures var front, x := items[..|items| - 1], items[|items| - 1];
      AllHaveShape(front, ShapeOf(s)) && HasShape(x, ShapeOf(s)) &&
      (AllNoErr(items) ==> AllNoErr(front) && NoErr(x)) &&
      (CopyEach(s, front).Some? ==> CopyEach(s, items) == Copy(CopyEach(s, front).value, x))
  {
    var front := items[..|items| - 1];
    assert forall y <- front :: y in items;
  }

  /** Once a copy has panicked, the rest of the slice is not copied. */
  lemma {:induction false} CopyEachPanicStops(s: Store, items: seq<Value>, k: nat)
    requires AllHaveShape(items, ShapeOf(s)) && k <= |items|
    requires AllHaveShape(items[..k], ShapeOf(s)) && CopyEach(s, items[..k]).None?
    ensures CopyEach(s, items).None?
    decreases |items| - k
  {
    if k < |items| {
      var next := items[..k + 1];
      assert next[..k] == items[..k];
      assert forall x <- next :: x in items;
      CopyEachPanicStops(s, items, k + 1);
    } else {
      assert items[..k] == items;
    }
  }

  /** The trait's default `copy_slice` as written: a loop of `copy`s. */
  method DefaultCopySlice(s: Store, items: seq<Value>) returns (r: Option<Store>)
    requires AllHaveShape(items, ShapeOf(s))
    ensures r == CopyEach(s, items)
  {
    var cur := s;
    var k := 0;
    while k < |items|
      invariant k <= |items|
      invariant AllHaveShape(items[..k], ShapeOf(s))
      invariant CopyEach(s, items[..k]) == Some(cur)
    {
      var next := items[..k + 1];
      assert next[..k] == items[..k];
      assert forall x <- next :: x in items;
      var c := Copy(cur, items[k]);
      if c.None? {
        CopyEachPanicStops(s, items, k + 1);
        return None;
      }
      cur := c.value;
      k := k + 1;
    }
    assert items[..k] == items;
    r := Some(cur);
  }

  // ---------------------------------------------------------------------------------------
  // What a copy does, as written
  // ---------------------------------------------------------------------------------------

  /** A copy that completes leaves `len()` defined and one larger. */
  lemma {:induction false} CopyLen(s: Store, v: Value)
    requires HasShape(v, ShapeOf(s)) && Copy(s, v).Some?
    ensures LenDefined(Copy(s, v).value)
    ensures LenDefined(s) ==> Len(Copy(s, v).value) == Len(s) + 1
  {
    match s
    case Tuple2(a, _) => CopyLen(a, v.v0);
    case Tuple3(a, _, _) => CopyLen(a, v.v0);
    case _ =>
  }

  /** Every copy keeps the capacities above the lengths and a `ColumnString`'s layout. */
  lemma {:induction false} CopyValid(s: Store, v: Value)
    requires Valid(s) && HasShape(v, ShapeOf(s)) && Copy(s, v).Some?
    ensures Valid(Copy(s, v).value)
    decreases ShapeOf(s), 0, 1
  {
    match s
    case ColumnString(b, bc, bytes, vc) =>
      if b == [] {
        SegmentsFirstPush(bytes + v.bytes, TextOf);
      } else {
        SegmentsPush(b, bytes, v.bytes, TextOf);
      }
    case ColumnVec(_, _, vals) => CopySliceValid(vals, v.items);
    case PrimVec(_, _, _) =>
    case UnitCount(_) =>
    case _ => CopyValidParts(s, v);
  }

  /** `CopyValid` for the stores made of other stores: each part stays valid. */
  lemma {:induction false} CopyValidParts(s: Store, v: Value)
    requires s.Tuple2? || s.Tuple3? || s.ColumnResult? || s.ColumnOption?
    requires Valid(s) && HasShape(v, ShapeOf(s)) && Copy(s, v).Some?
    ensures Valid(Copy(s, v).value)
    decreases ShapeOf(s), 0, 0
  {
    match s
    case Tuple2(a, c) => CopyValid(a, v.v0); CopyValid(c, v.v1);
    case Tuple3(a, c, d) => CopyValid(a, v.v0); CopyValid(c, v.v1); CopyValid(d, v.v2);
    case ColumnResult(_, _, sS, tS) =>
      if v.Ok? {
        CopyValid(sS, v.ok);
      } else {
        CopyValid(tS, v.err);
      }
    case ColumnOption(_, _, t) =>
      if v.Present? {
        CopyValid(t, v.inner);
      }
  }

  lemma {:induction false} CopySliceValid(s: Store, items: seq<Value>)
    requires Valid(s) && AllHaveShape(items, ShapeOf(s)) && CopySlice(s, items).Some?
    ensures Valid(CopySlice(s, items).value)
    decreases ShapeOf(s), 2, 0
  {
    match s
    case PrimVec(_, _, _) =>
    case UnitCount(_) =>
    case _ => CopyEachValid(s, items);
  }

  lemma {:induction false} CopyEachValid(s: Store, items: seq<Value>)
    requires Valid(s) && AllHaveShape(items, ShapeOf(s)) && CopyEach(s, items).Some?
    ensures Valid(CopyEach(s, items).value)
    decreases ShapeOf(s), 1, |items|
  {
    if items != [] {
      var front := items[..|items| - 1];
      assert forall x <- front :: x in items;
      CopyEachValid(s, front);
      CopyValid(CopyEach(s, front).value, items[|items| - 1]);
    }
  }

  /** A primed store never panics on `copy` and stays primed. */
  lemma {:induction false} CopyPrimed(s: Store, v: Value)
    requires Primed(s) && HasShape(v, ShapeOf(s))
    ensures Copy(s, v).Some? && Primed(Copy(s, v).value)
    decreases ShapeOf(s), 0, 0
  {
    match s
    case ColumnVec(_, _, vals) =>
      CopySlicePrimed(vals, v.items);
      assert LenDefined(CopySlice(vals, v.items).value);
    case Tuple2(a, c) => CopyPrimed(a, v.v0); CopyPrimed(c, v.v1);
    case Tuple3(a, c, d) => CopyPrimed(a, v.v0); CopyPrimed(c, v.v1); CopyPrimed(d, v.v2);
    case ColumnResult(_, _, sS, tS) =>
      assert LenDefined(sS);
      assert LenDefined(tS);
      if v.Ok? {
        CopyPrimed(sS, v.ok);
      } else {
        CopyPrimed(tS, v.err);
      }
    case ColumnOption(_, _, t) =>
      assert LenDefined(t);
      if v.Present? {
        CopyPrimed(t, v.inner);
      }
    case _ =>
  }

  lemma {:induction false} CopySlicePrimed(s: Store, items: seq<Value>)
    requires Primed(s) && AllHaveShape(items, ShapeOf(s))
    ensures CopySlice(s, items).Some? && Primed(CopySlice(s, items).value)
    decreases ShapeOf(s), 2, 0
  {
    match s
    case PrimVec(_, _, _) =>
    case UnitCount(_) =>
    case _ => CopyEachPrimed(s, items);
  }

  lemma {:induction false} CopyEachPrimed(s: Store, items: seq<Value>)
    requires Primed(s) && AllHaveShape(items, ShapeOf(s))
    ensures CopyEach(s, items).Some? && Primed(CopyEach(s, items).value)
    decreases ShapeOf(s), 1, |items|
  {
    if items != [] {
      var front := items[..|items| - 1];
      assert forall x <- front :: x in items;
      CopyEachPrimed(s, front);
      CopyPrimed(CopyEach(s, front).value, items[|items| - 1]);
    }
  }

  // ---------------------------------------------------------------------------------------
  // What a copy does to the entries
  // ---------------------------------------------------------------------------------------

  /** `copy` completes and keeps the entries exactly when the store is primed; a top-level
      `ColumnString`, or a `ColumnVec` over a primed store, also copies safely, turning the
      first entry into a base offset when its bounds are empty. */
  predicate CopyReady(s: Store) {
    match s
    case ColumnString(_, _, _, _) => true
    case ColumnVec(_, _, v) => Primed(v)
    case _ => Primed(s)
  }

  /** A ready store stays ready, and becomes primed, after any copy. */
  lemma CopyReadyPrimed(s: Store, v: Value)
    requires CopyReady(s) && HasShape(v, ShapeOf(s))
    ensures Copy(s, v).Some? && Primed(Copy(s, v).value)
  {
    match s
    case ColumnString(_, _, _, _) =>
    case ColumnVec(b, bc, vals) =>
      CopySlicePrimed(vals, v.items);
      assert LenDefined(CopySlice(vals, v.items).value);
    case _ => CopyPrimed(s, v);
  }

  /** Every `ColumnString` and `ColumnVec` that `copy(v)` writes to has its base offset, and
      the store nested in such a `ColumnVec` is primed. Parts the value does not reach (the
      other side of a `Result`, the payload of an `Option` on `None`) may lack bounds. */
  ghost predicate PrimedFor(s: Store, v: Value): (ok: bool)
    requires HasShape(v, ShapeOf(s))
    ensures Primed(s) ==> ok
    ensures ok ==> LenDefined(s)
  {
    match s
    case PrimVec(_, _, _) => true
    case UnitCount(_) => true
    case ColumnString(b, _, _, _) => |b| > 0
    case ColumnVec(b, _, vals) => |b| > 0 && Primed(vals)
    case Tuple2(a, c) => PrimedFor(a, v.v0) && PrimedFor(c, v.v1)
    case Tuple3(a, c, d) => PrimedFor(a, v.v0) && PrimedFor(c, v.v1) && PrimedFor(d, v.v2)
    case ColumnResult(_, _, sS, tS) => if v.Ok? then PrimedFor(sS, v.ok) else PrimedFor(tS, v.err)
    case ColumnOption(_, _, t) => v.Present? ==> PrimedFor(t, v.inner)
  }

  /** `copy` of an `Err`-free value into a sound, ready store appends exactly that value to
      the entries, unless the store is a `ColumnString` or `ColumnVec` with empty bounds, which
      absorbs it as its base offset. */
  lemma {:induction false} CopySound(s: Store, v: Value)
    requires Sound(s) && CopyReady(s) && NoErr(v) && HasShape(v, ShapeOf(s))
    ensures Copy(s, v).Some? && Sound(Copy(s, v).value)
    ensures Contents(Copy(s, v).value) == Contents(s) + Kept(Primed(s), [v])
    decreases ShapeOf(s), 0, 1
  {
    match s
    case PrimVec(_, _, _) => CopySoundPrim(s, v);
    case UnitCount(_) => CopySoundUnit(s, v);
    case ColumnString(_, _, _, _) => CopySoundText(s, v);
    case ColumnVec(_, _, _) => CopySoundList(s, v);
    case Tuple2(_, _) => assert PrimedFor(s, v); CopySoundPair(s, v);
    case Tuple3(_, _, _) => assert PrimedFor(s, v); CopySoundTriple(s, v);
    case ColumnResult(_, _, _, _) => assert PrimedFor(s, v); CopySoundResult(s, v);
    case ColumnOption(_, _, _) => assert PrimedFor(s, v); CopySoundOption(s, v);
  }

  /** `copy` of an `Err`-free value appends exactly that value whenever every part the value
      reaches has its bounds: e.g. `None` into a fresh `Option<String>` store, or `Ok(n)` into a
      fresh `Result<u64, String>` store. */
  lemma {:induction false} CopyAppends(s: Store, v: Value)
    requires Sound(s) && NoErr(v) && HasShape(v, ShapeOf(s)) && PrimedFor(s, v)
    ensures Copy(s, v).Some? && Sound(Copy(s, v).value)
    ensures Contents(Copy(s, v).value) == Contents(s) + [v]
    decreases ShapeOf(s), 0, 1
  {
    match s
    case PrimVec(_, _, _) => CopySoundPrim(s, v);
    case UnitCount(_) => CopySoundUnit(s, v);
    case ColumnString(_, _, _, _) => CopySoundText(s, v);
    case ColumnVec(_, _, _) => CopySoundList(s, v);
    case Tuple2(_, _) => CopySoundPair(s, v);
    case Tuple3(_, _, _) => CopySoundTriple(s, v);
    case ColumnResult(_, _, _, _) => CopySoundResult(s, v);
    case ColumnOption(_, _, _) => CopySoundOption(s, v);
  }

  lemma CopySoundPrim(s: Store, v: Value)
    requires s.PrimVec? && Sound(s) && HasShape(v, ShapeOf(s))
    ensures Copy(s, v).Some? && Sound(Copy(s, v).value)
    ensures Contents(Copy(s, v).value) == Contents(s) + [v]
  {
    assert Prims(s.items + [v.n]) == Prims(s.items) + [v];
  }

  lemma CopySoundUnit(s: Store, v: Value)
    requires s.UnitCount? && HasShape(v, ShapeOf(s))
    ensures Copy(s, v).Some? && Sound(Copy(s, v).value)
    ensures Contents(Copy(s, v).value) == Contents(s) + [v]
  {
    assert Units(s.count + 1) == Units(s.count) + [v];
  }

  lemma CopySoundText(s: Store, v: Value)
    requires s.ColumnString? && Sound(s) && HasShape(v, ShapeOf(s))
    ensures Copy(s, v).Some? && Sound(Copy(s, v).value)
    ensures Contents(Copy(s, v).value) == Contents(s) + Kept(Primed(s), [v])
  {
    var b, bytes := s.bounds, s.bytes;
    if b == [] {
      SegmentsFirstPush(bytes + v.bytes, TextOf);
    } else {
      SegmentsPush(b, bytes, v.bytes, TextOf);
    }
  }

  /** The `ColumnVec` case: the nested store gains the list's items and the new bound
      delimits them. */
  lemma {:induction false} CopySoundList(s: Store, v: Value)
    requires s.ColumnVec? && Sound(s) && Primed(s.values) && NoErr(v) && HasShape(v, ShapeOf(s))
    ensures Copy(s, v).Some? && Sound(Copy(s, v).value)
    ensures Contents(Copy(s, v).value) == Contents(s) + Kept(Primed(s), [v])
    decreases ShapeOf(s), 0, 0
  {
    var b, vals := s.bounds, s.values;
    CopySliceSound(vals, v.items);
    var vals' := CopySlice(vals, v.items).value;
    assert LenDefined(vals');
    var c, c' := Contents(vals), Contents(vals');
    assert Len(vals') == |c'|;
    var r := ColumnVec(b + [|c'|], Grown(s.boundsCap, |b| + 1), vals');
    assert Copy(s, v) == Some(r);
    assert c' == c + v.items;
    ListBoundPushed(b, r.boundsCap, vals', c, v);
  }

  /** Appending the bound `|c + items|` to bounds that delimit `c` keeps a `ColumnVec`
      sound and adds the list `v` as its newest entry, unless the bounds were empty. */
  lemma {:induction false} ListBoundPushed(b: seq<nat>, bc: nat, vals: Store, c: seq<Value>, v: Value)
    requires v.List? && |b| + 1 <= bc && Sound(vals) && Contents(vals) == c + v.items
    requires Within(b, |c|) && (if b == [] then c == [] else b[|b| - 1] == |c|)
    ensures Sound(ColumnVec(b + [|c + v.items|], bc, vals))
    ensures Contents(ColumnVec(b + [|c + v.items|], bc, vals)) == Segments(b, c, ListOf) + Kept(b != [], [v])
  {
    if b == [] {
      assert c + v.items == v.items;
      FirstListBound(bc, vals, v);
    } else {
      NextListBound(b, bc, vals, c, v);
    }
  }

  /** The first bound delimits nothing: the `ColumnVec` stays empty. */
  lemma {:induction false} FirstListBound(bc: nat, vals: Store, v: Value)
    requires v.List? && 1 <= bc && Sound(vals) && Contents(vals) == v.items
    ensures Sound(ColumnVec([|v.items|], bc, vals))
    ensures Contents(ColumnVec([|v.items|], bc, vals)) == []
  {
    SegmentsFirstPush(v.items, ListOf);
  }

  /** A later bound delimits the items appended since the previous one. */
  lemma {:induction false} NextListBound(b: seq<nat>, bc: nat, vals: Store, c: seq<Value>, v: Value)
    requires v.List? && |b| + 1 <= bc && Sound(vals) && Contents(vals) == c + v.items
    requires Within(b, |c|) && |b| > 0 && b[|b| - 1] == |c|
    ensures Sound(ColumnVec(b + [|c + v.items|], bc, vals))
    ensures Contents(ColumnVec(b + [|c + v.items|], bc, vals)) == Segments(b, c, ListOf) + [v]
  {
    SegmentsPush(b, c, v.items, ListOf);
    assert ListOf(v.items) == v;
  }

  lemma {:induction false} CopySoundPair(s: Store, v: Value)
    requires s.Tuple2? && Sound(s) && NoErr(v) && HasShape(v, ShapeOf(s)) && PrimedFor(s, v)
    ensures Copy(s, v).Some? && Sound(Copy(s, v).value)
    ensures Contents(Copy(s, v).value) == Contents(s) + [v]
    decreases ShapeOf(s), 0, 0
  {
    var a, c := s.c0, s.c1;
    CopyAppends(a, v.v0);
    CopyAppends(c, v.v1);
    Zip2Push(Contents(a), Contents(c), v.v0, v.v1);
  }

  lemma {:induction false} CopySoundTriple(s: Store, v: Value)
    requires s.Tuple3? && Sound(s) && NoErr(v) && HasShape(v, ShapeOf(s)) && PrimedFor(s, v)
    ensures Copy(s, v).Some? && Sound(Copy(s, v).value)
    ensures Contents(Copy(s, v).value) == Contents(s) + [v]
    decreases ShapeOf(s), 0, 0
  {
    var a, c, d := s.c0, s.c1, s.c2;
    CopyAppends(a, v.v0);
    CopyAppends(c, v.v1);
    CopyAppends(d, v.v2);
    Zip3Push(Contents(a), Contents(c), Contents(d), v.v0, v.v1, v.v2);
  }

  lemma {:induction false} CopySoundResult(s: Store, v: Value)
    requires s.ColumnResult? && Sound(s) && NoErr(v) && HasShape(v, ShapeOf(s)) && PrimedFor(s, v)
    ensures Copy(s, v).Some? && Sound(Copy(s, v).value)
    ensures Contents(Copy(s, v).value) == Contents(s) + [v]
    decreases ShapeOf(s), 0, 0
  {
    var ix, sS, tS := s.indexes, s.sStore, s.tStore;
    assert LenDefined(sS);
    CopyAppends(sS, v.ok);
    var sS' := Copy(sS, v.ok).value;
    var sc, tc := Contents(sS), Contents(tS);
    var r := ColumnResult(ix + [OkAt(|sc|)], Grown(s.indexesCap, |ix| + 1), sS', tS);
    assert Copy(s, v) == Some(r);
    ResultEntriesPush(ix, sc, tc, v);
    assert Contents(sS') == sc + [v.ok] && tc + [] == tc;
    assert Contents(r) == ResultEntries(ix + [OkAt(|sc|)], sc + [v.ok], tc);
  }

  lemma {:induction false} CopySoundOption(s: Store, v: Value)
    requires s.ColumnOption? && Sound(s) && NoErr(v) && HasShape(v, ShapeOf(s)) && PrimedFor(s, v)
    ensures Copy(s, v).Some? && Sound(Copy(s, v).value)
    ensures Contents(Copy(s, v).value) == Contents(s) + [v]
    decreases ShapeOf(s), 0, 0
  {
    var t := s.tStore;
    if v.Present? {
      assert LenDefined(t);
      CopyAppends(t, v.inner);
    }
    OptionEntriesPush(s.tags, Contents(t), v);
  }

  /** `copy_slice` of `Err`-free values into a sound, primed store appends them all. */
  lemma {:induction false} CopySliceSound(s: Store, items: seq<Value>)
    requires Sound(s) && Primed(s) && AllNoErr(items) && AllHaveShape(items, ShapeOf(s))
    ensures CopySlice(s, items).Some? && Sound(CopySlice(s, items).value)
    ensures Contents(CopySlice(s, items).value) == Contents(s) + items
    ensures Primed(CopySlice(s, items).value)
    decreases ShapeOf(s), 2, 0
  {
    match s
    case PrimVec(xs, cap, w) =>
      assert forall x <- items :: x.Prim?;
      assert Prims(xs + PrimsOf(items)) == Prims(xs) + items;
    case UnitCount(n) =>
      assert forall i :: 0 <= i < |items| ==> items[i] in items;
      assert Units(n + |items|) == Units(n) + items;
    case _ =>
      CopyEachSound(s, items);
      CopyEachPrimed(s, items);
  }

  /** One `copy` per item appends them all to a sound, ready store, except the first when it
      is absorbed as a base offset; after at least one copy the store is primed. */
  lemma {:induction false} CopyEachSound(s: Store, items: seq<Value>)
    requires Sound(s) && CopyReady(s) && AllNoErr(items) && AllHaveShape(items, ShapeOf(s))
    ensures CopyEach(s, items).Some? && Sound(CopyEach(s, items).value)
    ensures CopyReady(CopyEach(s, items).value)
    ensures Primed(CopyEach(s, items).value) == (Primed(s) || items != [])
    ensures Contents(CopyEach(s, items).value) == Contents(s) + Kept(Primed(s), items)
    decreases ShapeOf(s), 1, |items|
  {
    if items != [] {
      var k := |items| - 1;
      var front, x := items[..k], items[k];
      assert front + [x] == items;
      assert forall y <- front :: y in items;
      assert x in items;
      CopyEachSound(s, front);
      var mid := CopyEach(s, front).value;
      assert CopyEach(s, items) == Copy(mid, x);
      CopySound(mid, x);
      CopyReadyPrimed(mid, x);
      var r := Copy(mid, x).value;
      KeptChain(Contents(s), Contents(mid), Contents(r), Primed(s), front, x);
    }
  }

  /** The bulk `copy_slice` of a `Vec` or `usize` holds the same entries as the trait's
      default would; only the capacity can differ. */
  lemma BulkMatchesDefault(s: Store, items: seq<Value>)
    requires s.PrimVec? || s.UnitCount?
    requires Sound(s) && AllNoErr(items) && AllHaveShape(items, ShapeOf(s))
    ensures CopySlice(s, items).Some? && CopyEach(s, items).Some?
    ensures Sound(CopySlice(s, items).value) && Sound(CopyEach(s, items).value)
    ensures Contents(CopySlice(s, items).value) == Contents(CopyEach(s, items).value)
  {
    CopySliceSound(s, items);
    CopyEachSound(s, items);
  }

  /** As written, `copy(Err(y))` into a sound, primed `ColumnResult` pushes `Ok(t_store.len())`
      while `y` lands in `t_store`: afterwards no numbering of the tags fits the payloads. */
  lemma CopyErrUnsound(s: Store, v: Value)
    requires s.ColumnResult? && Sound(s) && Primed(s) && HasShape(v, ShapeOf(s))
    requires v.Err? && NoErr(v.err)
    ensures Copy(s, v).Some? && !Sound(Copy(s, v).value)
    ensures Copy(s, v).value.indexes == s.indexes + [OkAt(|Contents(s.tStore)|)]
  {
    var ix, sS, tS := s.indexes, s.sStore, s.tStore;
    assert LenDefined(tS);
    CopySound(tS, v.err);
    var t' := Copy(tS, v.err).value;
    var nt := |Contents(tS)|;
    assert Len(tS) == nt && Primed(tS);
    assert |Contents(t')| == nt + 1;
    var r := ColumnResult(ix + [OkAt(nt)], Grown(s.indexesCap, |ix| + 1), sS, t');
    assert Copy(s, v) == Some(r);
    OkTagMisnumbers(r, ix, |Contents(sS)|, nt);
  }

  /** A `ColumnResult` whose newest tag is `Ok(nt)` while `t_store` holds `nt + 1` payloads
      is not sound. */
  lemma OkTagMisnumbers(r: Store, ix: seq<Slot>, ns: nat, nt: nat)
    requires r.ColumnResult? && r.indexes == ix + [OkAt(nt)] && ResultNumbered(ix, ns, nt)
    requires Sound(r.sStore) && Sound(r.tStore)
    requires |Contents(r.sStore)| == ns && |Contents(r.tStore)| == nt + 1
    ensures !Sound(r)
  {
    ErrAsOkBreaksNumbering(ix, ns, nt);
  }
}
