/** `Columnable`: each type names its store, whose `Default` starts empty, and `as_columns`
    pushes a whole vector of values into a fresh store. */
module Columnable {
  import opened Values
  import opened Offsets
  import opened Tags
  import opened Stores
  import opened Copying
  import opened Popping

  /** `Default::default()` for the store of a shape. `ColumnString` derives its default, so its
      bounds start empty; `ColumnVec` starts its bounds at `vec![0]`. */
  function NewStore(sh: Shape): (s: Store)
    ensures ShapeOf(s) == sh && Sound(s) && Contents(s) == []
    ensures Primed(s) <==> !ContainsText(sh)
  {
    match sh
    case FlatShape(w) => PrimVec([], 0, w)
    case UnitShape => UnitCount(0)
    case TextShape => ColumnString([], 0, [], 0)
    case ListShape(e) => ColumnVec([0], 1, NewStore(e))
    case PairShape(a, b) => Tuple2(NewStore(a), NewStore(b))
    case TripleShape(a, b, c) => Tuple3(NewStore(a), NewStore(b), NewStore(c))
    case ResultShape(a, b) => ColumnResult([], 0, NewStore(a), NewStore(b))
    case OptionShape(e) => ColumnOption([], 0, NewStore(e))
  }

  /** `as_columns(selves)`: push every value, in order, into a default store. */
  method AsColumns(sh: Shape, selves: seq<Value>) returns (r: Option<Store>)
    requires AllHaveShape(selves, sh)
    ensures r == CopyEach(NewStore(sh), selves)
  {
    var columns := NewStore(sh);
    var k := 0;
    while k < |selves|
      invariant k <= |selves|
      invariant AllHaveShape(selves[..k], sh)
      invariant CopyEach(NewStore(sh), selves[..k]) == Some(columns)
    {
      var next := selves[..k + 1];
      assert next[..k] == selves[..k];
      assert forall x <- next :: x in selves;
      var c := Copy(columns, selves[k]);
      if c.None? {
        CopyEachPanicStops(NewStore(sh), selves, k + 1);
        return None;
      }
      columns := c.value;
      k := k + 1;
    }
    assert selves[..k] == selves;
    r := Some(columns);
  }

  /** `as_columns` of `Err`-free values whose type holds no `String` keeps every value; for
      `String` itself it keeps all but the first, which becomes the base offset. */
  lemma AsColumnsContents(sh: Shape, selves: seq<Value>)
    requires sh == TextShape || !ContainsText(sh)
    requires AllHaveShape(selves, sh) && AllNoErr(selves)
    ensures CopyEach(NewStore(sh), selves).Some?
    ensures Sound(CopyEach(NewStore(sh), selves).value)
    ensures Contents(CopyEach(NewStore(sh), selves).value) == Kept(!ContainsText(sh), selves)
  {
    CopyEachSound(NewStore(sh), selves);
  }

  /** For a type without `String`s or `Err`s, `index(i)` of the columns views the i-th value. */
  lemma AsColumnsIndex(sh: Shape, selves: seq<Value>)
    requires !ContainsText(sh) && AllHaveShape(selves, sh) && AllNoErr(selves)
    ensures CopyEach(NewStore(sh), selves).Some?
    ensures var r := CopyEach(NewStore(sh), selves).value;
      Valid(r) && forall i :: 0 <= i < |selves| ==>
        IndexOk(r, i) && ViewOk(Index(r, i)) && ViewValue(Index(r, i)) == selves[i]
  {
    AsColumnsContents(sh, selves);
    var r := CopyEach(NewStore(sh), selves).value;
    SoundIsValid(r);
    forall i | 0 <= i < |selves|
      ensures IndexOk(r, i) && ViewOk(Index(r, i)) && ViewValue(Index(r, i)) == selves[i]
    {
      IndexAgrees(r, i);
    }
  }

  /** `as_columns` of two strings holds only the second. */
  lemma FirstStringLost(x: seq<Byte>, y: seq<Byte>)
    ensures AllHaveShape([Text(x), Text(y)], TextShape)
    ensures CopyEach(NewStore(TextShape), [Text(x), Text(y)]).Some?
    ensures var r := CopyEach(NewStore(TextShape), [Text(x), Text(y)]).value;
      Sound(r) && Contents(r) == [Text(y)] && Len(r) == 1
  {
    AsColumnsContents(TextShape, [Text(x), Text(y)]);
  }

  /** In a `Vec<Vec<String>>`, pushing an empty vector first panics: the nested
      `ColumnString` still has no bounds when its `len()` is asked for. */
  lemma EmptyListOfStringsPanics()
    ensures HasShape(List([]), ListShape(TextShape))
    ensures Copy(NewStore(ListShape(TextShape)), List([])).None?
  {
  }

  /** In a `Vec<Vec<String>>`, the first pushed vector's first string is absorbed as a base
      offset, and the vector reads back empty. */
  lemma ListOfStringsLosesFirst(x: seq<Byte>)
    ensures HasShape(List([Text(x)]), ListShape(TextShape))
    ensures Copy(NewStore(ListShape(TextShape)), List([Text(x)])).Some?
    ensures var r := Copy(NewStore(ListShape(TextShape)), List([Text(x)])).value;
      Sound(r) && Contents(r) == [List([])]
  {
    var t := NewStore(TextShape);
    CopySoundText(t, Text(x));
    var t' := Copy(t, Text(x)).value;
    assert [Text(x)][..0] == [];
    assert CopySlice(t, [Text(x)]) == Some(t');
    assert Len(t') == 0 && Contents(t') == [];
  }

  /** In a `Vec<(String, u64)>`, the first push leaves the two columns of different lengths. */
  lemma PairWithStringOutOfStep(x: seq<Byte>, n: int)
    ensures HasShape(Pair(Text(x), Prim(n)), PairShape(TextShape, FlatShape(8)))
    ensures Copy(NewStore(PairShape(TextShape, FlatShape(8))), Pair(Text(x), Prim(n))).Some?
    ensures !Sound(Copy(NewStore(PairShape(TextShape, FlatShape(8))), Pair(Text(x), Prim(n))).value)
  {
    assert HasShape(Text(x), TextShape) && HasShape(Prim(n), FlatShape(8));
    var r := Copy(NewStore(PairShape(TextShape, FlatShape(8))), Pair(Text(x), Prim(n))).value;
    CopySoundText(NewStore(TextShape), Text(x));
    assert |Contents(r.c0)| == 0;
  }

  /** In a `Vec<(String, u64)>`, `copy(("a", 1))` then `copy(("b", 2))`: the string column
      takes the bounds `[1, 2]` over the bytes `ab`, so it holds one entry, while the number
      column holds two. */
  lemma StringPairsCopied()
    ensures HasShape(Pair(Text([0x61]), Prim(1)), PairShape(TextShape, FlatShape(8)))
    ensures HasShape(Pair(Text([0x62]), Prim(2)), PairShape(TextShape, FlatShape(8)))
    ensures Copy(NewStore(PairShape(TextShape, FlatShape(8))), Pair(Text([0x61]), Prim(1)))
      == Some(Tuple2(ColumnString([1], 1, [0x61], 1), PrimVec([1], 1, 8)))
    ensures Copy(Tuple2(ColumnString([1], 1, [0x61], 1), PrimVec([1], 1, 8)), Pair(Text([0x62]), Prim(2)))
      == Some(Tuple2(ColumnString([1, 2], 2, [0x61, 0x62], 2), PrimVec([1, 2], 2, 8)))
  {
    assert [] + [0x61 as Byte] == [0x61];
    assert [0x61 as Byte] + [0x62] == [0x61, 0x62];
    assert [] + [1] == [1] && [1] + [2] == [1, 2];
    assert [] + [1 as nat] == [1] && [1 as nat] + [2] == [1, 2];
  }

  /** Popping the store `StringPairsCopied` leaves: both columns are sound but the pair store
      is not. The first `pop` answers `("b", 2)`; the second finds the string column empty and
      the number column not, and panics with "invariant violated". */
  lemma StringPairsPopOutOfStep()
    ensures var s := Tuple2(ColumnString([1, 2], 2, [0x61, 0x62], 2), PrimVec([1, 2], 2, 8));
      Sound(s.c0) && Sound(s.c1) && !Sound(s)
    ensures PopPair(Tuple2(ColumnString([1, 2], 2, [0x61, 0x62], 2), PrimVec([1, 2], 2, 8)))
      == Some((Tuple2(ColumnString([1], 2, [0x61], 2), PrimVec([1], 2, 8)), Some(Pair(Text([0x62]), Prim(2)))))
    ensures PopPair(Tuple2(ColumnString([1], 2, [0x61], 2), PrimVec([1], 2, 8))).None?
  {
    StringColumnPops();
    NumberColumnPops();
  }

  /** The string column of `StringPairsCopied`: one entry, `b`, and after a `pop` none. */
  lemma StringColumnPops()
    ensures var t := ColumnString([1, 2], 2, [0x61, 0x62], 2);
      Sound(t) && Contents(t) == [Text([0x62])] &&
      Pop(t) == (ColumnString([1], 2, [0x61], 2), Some(Text([0x62])))
    ensures Sound(ColumnString([1], 2, [0x61], 2)) && Contents(ColumnString([1], 2, [0x61], 2)) == []
  {
    var b: seq<nat>, xs: seq<Byte> := [1, 2], [0x61, 0x62];
    var t := ColumnString(b, 2, xs, 2);
    assert b[..1] == [1] && xs[..1] == [0x61] && xs[1..] == xs[1..2] == [0x62];
    assert Segments(b, xs, TextOf) == [Text([0x62])];
    assert Pop(t) == PopText(t);
  }

  /** The number column of `StringPairsCopied`: two entries, and after a `pop` one. */
  lemma NumberColumnPops()
    ensures Sound(PrimVec([1, 2], 2, 8)) && |Contents(PrimVec([1, 2], 2, 8))| == 2
    ensures Pop(PrimVec([1, 2], 2, 8)) == (PrimVec([1], 2, 8), Some(Prim(2)))
    ensures Contents(PrimVec([1], 2, 8)) == [Prim(1)]
  {
    var ns: seq<int> := [1, 2];
    assert ns[..1] == [1];
    assert Pop(PrimVec(ns, 2, 8)) == PopPrim(PrimVec(ns, 2, 8));
  }

  /** In a `Vec<Result<u64, u64>>`, pushing `Err(n)` records an `Ok` tag pointing into the
      still empty `Ok` store. */
  lemma ErrPushedAsOk(n: int)
    ensures HasShape(Err(Prim(n)), ResultShape(FlatShape(8), FlatShape(8)))
    ensures Copy(NewStore(ResultShape(FlatShape(8), FlatShape(8))), Err(Prim(n))).Some?
    ensures var r := Copy(NewStore(ResultShape(FlatShape(8), FlatShape(8))), Err(Prim(n))).value;
      r.indexes == [OkAt(0)] && r.sStore.items == [] && r.tStore.items == [n] && !Sound(r)
  {
    CopyErrUnsound(NewStore(ResultShape(FlatShape(8), FlatShape(8))), Err(Prim(n)));
  }

  /** In a `Vec<Result<u64, u64>>`, `copy(Ok(1))` then `copy(Err(5))` records two `Ok(0)` tags,
      with 1 in the `Ok` store and 5 in the `Err` store. */
  lemma OkThenErrCopied()
    ensures HasShape(Ok(Prim(1)), ResultShape(FlatShape(8), FlatShape(8)))
    ensures HasShape(Err(Prim(5)), ResultShape(FlatShape(8), FlatShape(8)))
    ensures Copy(NewStore(ResultShape(FlatShape(8), FlatShape(8))), Ok(Prim(1)))
      == Some(ColumnResult([OkAt(0)], 1, PrimVec([1], 1, 8), PrimVec([], 0, 8)))
    ensures Copy(ColumnResult([OkAt(0)], 1, PrimVec([1], 1, 8), PrimVec([], 0, 8)), Err(Prim(5)))
      == Some(ColumnResult([OkAt(0), OkAt(0)], 2, PrimVec([1], 1, 8), PrimVec([5], 1, 8)))
  {
    var e := PrimVec([], 0, 8);
    assert Copy(e, Prim(1)) == Some(PrimVec([1], 1, 8)) by { assert [] + [1] == [1]; }
    assert Copy(e, Prim(5)) == Some(PrimVec([5], 1, 8)) by { assert [] + [5] == [5]; }
    assert [] + [OkAt(0)] == [OkAt(0)] && [OkAt(0)] + [OkAt(0)] == [OkAt(0), OkAt(0)];
  }

  /** The store `OkThenErrCopied` leaves is not sound: entry 1 reads back as `Ok(1)`, `pop`
      answers `Ok(1)` where `Err(5)` went in, and a second `pop` panics unwrapping the emptied
      `Ok` store. */
  lemma ErrPopsAsOk()
    ensures var s := ColumnResult([OkAt(0), OkAt(0)], 2, PrimVec([1], 1, 8), PrimVec([5], 1, 8));
      !Sound(s) && Valid(s) && IndexOk(s, 1) && Index(s, 1) == OkView(PrimView(1))
    ensures PopResult(ColumnResult([OkAt(0), OkAt(0)], 2, PrimVec([1], 1, 8), PrimVec([5], 1, 8)))
      == Some((ColumnResult([OkAt(0)], 2, PrimVec([], 1, 8), PrimVec([5], 1, 8)), Some(Ok(Prim(1)))))
    ensures PopResult(ColumnResult([OkAt(0)], 2, PrimVec([], 1, 8), PrimVec([5], 1, 8))).None?
  {
    var s := ColumnResult([OkAt(0), OkAt(0)], 2, PrimVec([1], 1, 8), PrimVec([5], 1, 8));
    assert Index(s, 1) == IndexResult(s, 1);
    assert [OkAt(0), OkAt(0)][..1] == [OkAt(0)] && [1][..0] == [];
    assert Pop(PrimVec([1], 1, 8)) == (PrimVec([], 1, 8), Some(Prim(1)));
  }
}
