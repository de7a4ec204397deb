/** The stores of the `Columnar` contract, their invariants and the read-only operations.

    Each Rust store is a value of `Store`. A store exclusively owns the stores nested in it,
    so an operation through `&mut self` is modelled as a function from the old store to the
    new one. The generic parameters of the composite stores (`ColumnVec<TC>`, the tuple
    stores, `ColumnResult<SC, TC>`, `ColumnOption<TC>`) are filled by nested `Store`s, and
    every operation dispatches on the constructor, playing the part of the `Columnar` trait.

    Three predicates describe a store:
    - `Valid`: what every operation keeps, whatever the order of calls (capacities cover
      lengths; a `ColumnString`'s bounds ascend and end at its byte count);
    - `Sound`: the layout the design intends (bounds of a `ColumnVec` end at the nested
      length, tags numbered against their payloads, tuple columns of equal length); only
      then does a store hold the entries `Contents`;
    - `Primed`: every `ColumnString` and `ColumnVec` inside has non-empty bounds, so `len`
      does not underflow and no copied entry is absorbed as a base offset. */
module Stores {
  import opened Values
  import opened Offsets
  import opened Tags

  /** `size_of::<usize>()` on a 64-bit target. */
  const WordSize: nat := 8

  /** `size_of::<Result<usize, usize>>()` on a 64-bit target. */
  const ResultSlotSize: nat := 16

  datatype Store =
    | PrimVec(items: seq<int>, cap: nat, width: nat)      // `Vec<T>` of a primitive `T`
    | UnitCount(count: nat)                               // `usize` counting `()`s
    | ColumnString(bounds: seq<nat>, boundsCap: nat, bytes: seq<Byte>, bytesCap: nat)
    | ColumnVec(bounds: seq<nat>, boundsCap: nat, values: Store)
    | Tuple2(c0: Store, c1: Store)
    | Tuple3(c0: Store, c1: Store, c2: Store)
    | ColumnResult(indexes: seq<Slot>, indexesCap: nat, sStore: Store, tStore: Store)
    // `ColumnOption`'s `indexes`; a destructor shared with `ColumnResult` would need one type
    | ColumnOption(tags: seq<Option<nat>>, tagsCap: nat, tStore: Store)

  /** What `index` returns: a view of one entry, not an owned value. */
  datatype View =
    | PrimView(n: int)                                    // `&T`
    | UnitView                                            // `&()`
    | BytesView(bytes: seq<Byte>)                         // `&[u8]`
    | RangeView(lower: nat, upper: nat, nested: Store)    // `ColumnVecRef`
    | PairView(w0: View, w1: View)
    | TripleView(w0: View, w1: View, w2: View)
    | OkView(ok: View)
    | ErrView(err: View)
    | AbsentView
    | PresentView(inner: View)

  /** The Rust type whose values the store holds. */
  function ShapeOf(s: Store): Shape {
    match s
    case PrimVec(_, _, w) => FlatShape(w)
    case UnitCount(_) => UnitShape
    case ColumnString(_, _, _, _) => TextShape
    case ColumnVec(_, _, v) => ListShape(ShapeOf(v))
    case Tuple2(a, b) => PairShape(ShapeOf(a), ShapeOf(b))
    case Tuple3(a, b, c) => TripleShape(ShapeOf(a), ShapeOf(b), ShapeOf(c))
    case ColumnResult(_, _, a, b) => ResultShape(ShapeOf(a), ShapeOf(b))
    case ColumnOption(_, _, a) => OptionShape(ShapeOf(a))
  }

  // ---------------------------------------------------------------------------------------
  // Invariants
  // ---------------------------------------------------------------------------------------

  /** Kept by every operation: no vector is longer than its capacity, and a `ColumnString`'s
      bounds ascend and end at the end of its bytes (no bounds, no bytes). */
  ghost predicate Valid(s: Store) {
    match s
    case PrimVec(items, cap, _) => |items| <= cap
    case UnitCount(_) => true
    case ColumnString(b, bc, bytes, vc) =>
      |b| <= bc && |bytes| <= vc && Within(b, |bytes|) &&
      (if b == [] then bytes == [] else b[|b| - 1] == |bytes|)
    case ColumnVec(b, bc, v) => |b| <= bc && Valid(v)
    case Tuple2(a, b) => Valid(a) && Valid(b)
    case Tuple3(a, b, c) => Valid(a) && Valid(b) && Valid(c)
    case ColumnResult(ix, cap, a, b) => |ix| <= cap && Valid(a) && Valid(b)
    case ColumnOption(ix, cap, a) => |ix| <= cap && Valid(a)
  }

  /** The intended layout: valid, every `ColumnVec`'s bounds ascend and end at its nested
      store's length, tags are numbered against their payload stores, tuple columns have
      equal length. */
  ghost predicate Sound(s: Store)
    decreases s, 1
  {
    match s
    case PrimVec(_, _, _) => Valid(s)
    case UnitCount(_) => true
    case ColumnString(_, _, _, _) => Valid(s)
    case ColumnVec(b, bc, v) =>
      |b| <= bc && Sound(v) && Within(b, |Contents(v)|) &&
      (if b == [] then Contents(v) == [] else b[|b| - 1] == |Contents(v)|)
    case Tuple2(a, b) => Sound(a) && Sound(b) && |Contents(a)| == |Contents(b)|
    case Tuple3(a, b, c) =>
      Sound(a) && Sound(b) && Sound(c) && |Contents(a)| == |Contents(b)| == |Contents(c)|
    case ColumnResult(ix, cap, a, b) =>
      |ix| <= cap && Sound(a) && Sound(b) && ResultNumbered(ix, |Contents(a)|, |Contents(b)|)
    case ColumnOption(ix, cap, a) =>
      |ix| <= cap && Sound(a) && OptionNumbered(ix, |Contents(a)|)
  }

  /** The entries of a sound store, oldest first. */
  ghost function Contents(s: Store): seq<Value>
    requires Sound(s)
    decreases s, 2
  {
    match s
    case PrimVec(items, _, _) => Prims(items)
    case UnitCount(n) => Units(n)
    case ColumnString(b, _, bytes, _) => Segments(b, bytes, TextOf)
    case ColumnVec(b, _, v) => Segments(b, Contents(v), ListOf)
    case Tuple2(a, b) => Zip2(Contents(a), Contents(b))
    case Tuple3(a, b, c) => Zip3(Contents(a), Contents(b), Contents(c))
    case ColumnResult(ix, _, a, b) => ResultEntries(ix, Contents(a), Contents(b))
    case ColumnOption(ix, _, a) => OptionEntries(ix, Contents(a))
  }

  /** The intended layout includes the kept one. */
  lemma {:induction false} SoundIsValid(s: Store)
    requires Sound(s)
    ensures Valid(s)
  {
    match s
    case ColumnVec(_, _, v) => SoundIsValid(v);
    case Tuple2(a, b) => SoundIsValid(a); SoundIsValid(b);
    case Tuple3(a, b, c) => SoundIsValid(a); SoundIsValid(b); SoundIsValid(c);
    case ColumnResult(_, _, a, b) => SoundIsValid(a); SoundIsValid(b);
    case ColumnOption(_, _, a) => SoundIsValid(a);
    case _ =>
  }

  /** Every `ColumnString` and `ColumnVec` inside has at least its base offset. */
  predicate Primed(s: Store) {
    match s
    case PrimVec(_, _, _) => true
    case UnitCount(_) => true
    case ColumnString(b, _, _, _) => |b| > 0
    case ColumnVec(b, _, v) => |b| > 0 && Primed(v)
    case Tuple2(a, b) => Primed(a) && Primed(b)
    case Tuple3(a, b, c) => Primed(a) && Primed(b) && Primed(c)
    case ColumnResult(_, _, a, b) => Primed(a) && Primed(b)
    case ColumnOption(_, _, a) => Primed(a)
  }

  // ---------------------------------------------------------------------------------------
  // `len`, `is_empty`, `index`, `last`
  // ---------------------------------------------------------------------------------------

  /** `len()` does not underflow: `bounds.len() - 1` of a `ColumnString` or `ColumnVec` (of
      the first column, for a tuple store) needs a bound. Every primed store, and every sound
      store holding an entry, has one. */
  predicate LenDefined(s: Store): (ok: bool)
    ensures Primed(s) ==> ok
    ensures Sound(s) && Contents(s) != [] ==> ok
  {
    match s
    case ColumnString(b, _, _, _) => |b| > 0
    case ColumnVec(b, _, _) => |b| > 0
    case Tuple2(a, _) => LenDefined(a)
    case Tuple3(a, _, _) => LenDefined(a)
    case _ => true
  }

  /** `len()`: the vector length, the counter, one less than the bound count, the first
      column's length, or the tag count; of a sound store, its number of entries. */
  function Len(s: Store): (n: nat)
    requires LenDefined(s)
    ensures Sound(s) ==> n == |Contents(s)|
  {
    match s
    case PrimVec(items, _, _) => |items|
    case UnitCount(n) => n
    case ColumnString(b, _, _, _) => |b| - 1
    case ColumnVec(b, _, _) => |b| - 1
    case Tuple2(a, _) => Len(a)
    case Tuple3(a, _, _) => Len(a)
    case ColumnResult(ix, _, _, _) => |ix|
    case ColumnOption(ix, _, _) => |ix|
  }

  /** `is_empty()`, the trait's default. */
  function IsEmpty(s: Store): (b: bool)
    requires LenDefined(s)
    ensures Sound(s) ==> (b <==> Contents(s) == [])
  {
    Len(s) == 0
  }

  /** `index(i)` does not panic: every vector it reads is long enough. The unit store answers
      `&()` at any position. Every entry of a sound store passes these checks. */
  predicate IndexOk(s: Store, i: nat): (ok: bool)
    ensures Sound(s) && i < |Contents(s)| ==> ok
  {
    match s
    case PrimVec(items, _, _) => i < |items|
    case UnitCount(_) => true
    case ColumnString(b, _, _, _) => i + 1 < |b|
    case ColumnVec(b, _, _) => i + 1 < |b|
    case Tuple2(a, b) => IndexOk(a, i) && IndexOk(b, i)
    case Tuple3(a, b, c) => IndexOk(a, i) && IndexOk(b, i) && IndexOk(c, i)
    case ColumnResult(ix, _, a, b) =>
      assert Sound(s) && i < |Contents(s)| ==>
        i < |ix| && if ix[i].OkAt? then ix[i].offset < |Contents(a)| else ix[i].offset < |Contents(b)|
      by {
        if Sound(s) && i < |Contents(s)| {
          ResultEntriesAt(ix, Contents(a), Contents(b), i);
        }
      }
      i < |ix| &&
      (match ix[i]
       case OkAt(k) => IndexOk(a, k)
       case ErrAt(k) => IndexOk(b, k))
    case ColumnOption(ix, _, a) =>
      assert Sound(s) && i < |Contents(s)| ==>
        i < |ix| && (ix[i].Some? ==> ix[i].value < |Contents(a)|)
      by {
        if Sound(s) && i < |Contents(s)| {
          OptionEntriesAt(ix, Contents(a), i);
        }
      }
      i < |ix| && (ix[i].Some? ==> IndexOk(a, ix[i].value))
  }

  /** Every range inside the view lies within its sound nested store. */
  ghost predicate ViewOk(w: View) {
    match w
    case RangeView(lo, hi, st) => Sound(st) && lo <= hi <= |Contents(st)|
    case PairView(a, b) => ViewOk(a) && ViewOk(b)
    case TripleView(a, b, c) => ViewOk(a) && ViewOk(b) && ViewOk(c)
    case OkView(a) => ViewOk(a)
    case ErrView(a) => ViewOk(a)
    case PresentView(a) => ViewOk(a)
    case _ => true
  }

  /** The owned value a view stands for. */
  ghost function ViewValue(w: View): Value
    requires ViewOk(w)
  {
    match w
    case PrimView(n) => Prim(n)
    case UnitView => UnitValue
    case BytesView(b) => Text(b)
    case RangeView(lo, hi, st) => List(Contents(st)[lo..hi])
    case PairView(a, b) => Pair(ViewValue(a), ViewValue(b))
    case TripleView(a, b, c) => Triple(ViewValue(a), ViewValue(b), ViewValue(c))
    case OkView(a) => Ok(ViewValue(a))
    case ErrView(a) => Err(ViewValue(a))
    case AbsentView => Absent
    case PresentView(a) => Present(ViewValue(a))
  }

  /** `index(i)`: a view of entry i, routed through bounds and tags. Of a sound store it
      views exactly the i-th entry: bounds delimit it, tags route to its payload. */
  function Index(s: Store, i: nat): (w: View)
    requires Valid(s) && IndexOk(s, i)
    ensures Sound(s) && i < |Contents(s)| ==> ViewOk(w) && ViewValue(w) == Contents(s)[i]
    decreases s, 1
  {
    match s
    case PrimVec(items, _, _) => PrimView(items[i])
    case UnitCount(_) => UnitView
    case ColumnString(_, _, _, _) => IndexText(s, i)
    case ColumnVec(_, _, _) => IndexList(s, i)
    case Tuple2(_, _) => IndexPair(s, i)
    case Tuple3(_, _, _) => IndexTriple(s, i)
    case ColumnResult(_, _, _, _) => IndexResult(s, i)
    case ColumnOption(_, _, _) => IndexOption(s, i)
  }

  /** `ColumnString::index`: the bytes between bounds i and i + 1. */
  function IndexText(s: Store, i: nat): (w: View)
    requires s.ColumnString? && Valid(s) && IndexOk(s, i)
    ensures Sound(s) && i < |Contents(s)| ==> ViewOk(w) && ViewValue(w) == Contents(s)[i]
    decreases s, 0
  {
    var b, bytes := s.bounds, s.bytes;
    AscendingAt(b, i, i + 1);
    AscendingAt(b, i + 1, |b| - 1);
    SegmentAt(b, bytes, TextOf, i);
    BytesView(bytes[b[i]..b[i + 1]])
  }

  /** `ColumnVec::index`: a reference to the nested store with the range between bounds i and
      i + 1. */
  function IndexList(s: Store, i: nat): (w: View)
    requires s.ColumnVec? && Valid(s) && IndexOk(s, i)
    ensures Sound(s) && i < |Contents(s)| ==> ViewOk(w) && ViewValue(w) == Contents(s)[i]
    decreases s, 0
  {
    var b, v := s.bounds, s.values;
    assert Sound(s) ==>
      Within(b, |Contents(v)|) && Segments(b, Contents(v), ListOf)[i] == List(Contents(v)[b[i]..b[i + 1]])
    by {
      if Sound(s) {
        SegmentAt(b, Contents(v), ListOf, i);
      }
    }
    RangeView(b[i], b[i + 1], v)
  }

  /** The pair store's `index`: index both columns at i. */
  function IndexPair(s: Store, i: nat): (w: View)
    requires s.Tuple2? && Valid(s) && IndexOk(s, i)
    ensures Sound(s) && i < |Contents(s)| ==> ViewOk(w) && ViewValue(w) == Contents(s)[i]
    decreases s, 0
  {
    PairView(Index(s.c0, i), Index(s.c1, i))
  }

  /** The triple store's `index`: index all three columns at i. */
  function IndexTriple(s: Store, i: nat): (w: View)
    requires s.Tuple3? && Valid(s) && IndexOk(s, i)
    ensures Sound(s) && i < |Contents(s)| ==> ViewOk(w) && ViewValue(w) == Contents(s)[i]
    decreases s, 0
  {
    TripleView(Index(s.c0, i), Index(s.c1, i), Index(s.c2, i))
  }

  /** `ColumnResult::index`: tag i names the side and the position in that side's store. */
  function IndexResult(s: Store, i: nat): (w: View)
    requires s.ColumnResult? && Valid(s) && IndexOk(s, i)
    ensures Sound(s) && i < |Contents(s)| ==> ViewOk(w) && ViewValue(w) == Contents(s)[i]
    decreases s, 0
  {
    var ix, a, b := s.indexes, s.sStore, s.tStore;
    assert Sound(s) && i < |Contents(s)| ==>
      Contents(s)[i] == if ix[i].OkAt? then Ok(Contents(a)[ix[i].offset]) else Err(Contents(b)[ix[i].offset])
    by {
      if Sound(s) && i < |Contents(s)| {
        ResultEntriesAt(ix, Contents(a), Contents(b), i);
      }
    }
    match ix[i]
    case OkAt(k) => OkView(Index(a, k))
    case ErrAt(k) => ErrView(Index(b, k))
  }

  /** `ColumnOption::index`: tag i is `None` or the position in the inner store. */
  function IndexOption(s: Store, i: nat): (w: View)
    requires s.ColumnOption? && Valid(s) && IndexOk(s, i)
    ensures Sound(s) && i < |Contents(s)| ==> ViewOk(w) && ViewValue(w) == Contents(s)[i]
    decreases s, 0
  {
    var ix, a := s.tags, s.tStore;
    assert Sound(s) && i < |Contents(s)| ==>
      Contents(s)[i] == if ix[i].Some? then Present(Contents(a)[ix[i].value]) else Absent
    by {
      if Sound(s) && i < |Contents(s)| {
        OptionEntriesAt(ix, Contents(a), i);
      }
    }
    match ix[i]
    case Some(k) => PresentView(Index(a, k))
    case None => AbsentView
  }

  /** Every entry of a sound store can be indexed, and `index` views it. */
  lemma IndexAgrees(s: Store, i: nat)
    requires Sound(s) && i < |Contents(s)|
    ensures Valid(s) && IndexOk(s, i)
    ensures ViewOk(Index(s, i)) && ViewValue(Index(s, i)) == Contents(s)[i]
  {
    SoundIsValid(s);
  }

  /** `last()`, the trait's default: `None` exactly when the store is empty, otherwise the
      view of the newest entry. */
  function Last(s: Store): (r: Option<View>)
    requires Valid(s) && LenDefined(s) && (Len(s) > 0 ==> IndexOk(s, Len(s) - 1))
    ensures Sound(s) ==> (r.None? <==> Contents(s) == [])
    ensures Sound(s) && r.Some? ==>
      ViewOk(r.value) && ViewValue(r.value) == Contents(s)[|Contents(s)| - 1]
  {
    if IsEmpty(s) then None else Some(Index(s, Len(s) - 1))
  }

  /** `ColumnVecRef::len`: `upper - lower`, the length of the viewed list. */
  function RefLen(w: View): (n: nat)
    requires w.RangeView? && w.lower <= w.upper
    ensures ViewOk(w) ==> n == |ViewValue(w).items|
  {
    w.upper - w.lower
  }

  /** `ColumnVecRef::index(j)`: asserts `j < upper - lower`, then indexes the nested store at
      `lower + j`; the result views element j of the viewed list. */
  function RefIndex(w: View, j: nat): (r: View)
    requires w.RangeView? && w.lower <= w.upper && j < w.upper - w.lower
    requires Valid(w.nested) && IndexOk(w.nested, w.lower + j)
    ensures ViewOk(w) ==> ViewOk(r) && ViewValue(r) == ViewValue(w).items[j]
  {
    var r := Index(w.nested, w.lower + j);
    assert ViewOk(w) ==> ViewOk(r) && ViewValue(r) == ViewValue(w).items[j] by {
      if ViewOk(w) {
        IndexAgrees(w.nested, w.lower + j);
      }
    }
    r
  }

  // ---------------------------------------------------------------------------------------
  // `heap_size`, `clear`
  // ---------------------------------------------------------------------------------------

  /** `heap_size()`: bytes in use and bytes allocated, over every vector owned transitively.
      The tags of a `ColumnOption` are measured at the size of `Result<usize, usize>`. */
  function HeapSize(s: Store): (nat, nat) {
    match s
    case PrimVec(items, cap, w) => (w * |items|, w * cap)
    case UnitCount(_) => (0, 0)
    case ColumnString(b, bc, bytes, vc) => (WordSize * |b| + |bytes|, WordSize * bc + vc)
    case ColumnVec(b, bc, v) =>
      var h := HeapSize(v);
      (WordSize * |b| + h.0, WordSize * bc + h.1)
    case Tuple2(a, b) =>
      var h0, h1 := HeapSize(a), HeapSize(b);
      (h0.0 + h1.0, h0.1 + h1.1)
    case Tuple3(a, b, c) =>
      var h0, h1, h2 := HeapSize(a), HeapSize(b), HeapSize(c);
      (h0.0 + h1.0 + h2.0, h0.1 + h1.1 + h2.1)
    case ColumnResult(ix, cap, a, b) =>
      var h0, h1 := HeapSize(a), HeapSize(b);
      (h0.0 + h1.0 + ResultSlotSize * |ix|, h0.1 + h1.1 + ResultSlotSize * cap)
    case ColumnOption(ix, cap, a) =>
      var h := HeapSize(a);
      (h.0 + ResultSlotSize * |ix|, h.1 + ResultSlotSize * cap)
  }

  /** On a valid store every capacity covers its length, so the bytes in use never exceed the
      bytes allocated. */
  lemma {:induction false} HeapBounded(s: Store)
    requires Valid(s)
    ensures HeapSize(s).0 <= HeapSize(s).1
  {
    match s
    case PrimVec(items, cap, w) => MulMono(w, |items|, cap);
    case UnitCount(_) =>
    case ColumnString(b, bc, _, _) => MulMono(WordSize, |b|, bc);
    case ColumnVec(b, bc, v) => MulMono(WordSize, |b|, bc); HeapBounded(v);
    case Tuple2(a, b) => HeapBounded(a); HeapBounded(b);
    case Tuple3(a, b, c) => HeapBounded(a); HeapBounded(b); HeapBounded(c);
    case ColumnResult(ix, cap, a, b) => MulMono(ResultSlotSize, |ix|, cap); HeapBounded(a); HeapBounded(b);
    case ColumnOption(ix, cap, a) => MulMono(ResultSlotSize, |ix|, cap); HeapBounded(a);
  }

  /** The store with every capacity set to zero: what is left is what `len`, `index` and
      `pop` observe, and the bytes in use. */
  function Uncapped(s: Store): Store {
    match s
    case PrimVec(items, _, w) => PrimVec(items, 0, w)
    case UnitCount(n) => UnitCount(n)
    case ColumnString(b, _, bytes, _) => ColumnString(b, 0, bytes, 0)
    case ColumnVec(b, _, v) => ColumnVec(b, 0, Uncapped(v))
    case Tuple2(a, b) => Tuple2(Uncapped(a), Uncapped(b))
    case Tuple3(a, b, c) => Tuple3(Uncapped(a), Uncapped(b), Uncapped(c))
    case ColumnResult(ix, _, a, b) => ColumnResult(ix, 0, Uncapped(a), Uncapped(b))
    case ColumnOption(ix, _, a) => ColumnOption(ix, 0, Uncapped(a))
  }

  /** Capacities play no part in being primed or in the bytes in use. */
  lemma {:induction false} UncappedKeeps(s: Store)
    ensures Primed(Uncapped(s)) == Primed(s)
    ensures HeapSize(Uncapped(s)) == (HeapSize(s).0, 0)
  {
    match s
    case ColumnVec(_, _, v) => UncappedKeeps(v);
    case Tuple2(a, b) => UncappedKeeps(a); UncappedKeeps(b);
    case Tuple3(a, b, c) => UncappedKeeps(a); UncappedKeeps(b); UncappedKeeps(c);
    case ColumnResult(_, _, a, b) => UncappedKeeps(a); UncappedKeeps(b);
    case ColumnOption(_, _, a) => UncappedKeeps(a);
    case _ =>
  }

  /** `clear()`: every vector and counter emptied. */
  function Clear(s: Store): Store {
    match s
    case PrimVec(_, cap, w) => PrimVec([], cap, w)
    case UnitCount(_) => UnitCount(0)
    case ColumnString(_, bc, _, vc) => ColumnString([], bc, [], vc)
    case ColumnVec(_, bc, v) => ColumnVec([], bc, Clear(v))
    case Tuple2(a, b) => Tuple2(Clear(a), Clear(b))
    case Tuple3(a, b, c) => Tuple3(Clear(a), Clear(b), Clear(c))
    case ColumnResult(_, cap, a, b) => ColumnResult([], cap, Clear(a), Clear(b))
    case ColumnOption(_, cap, a) => ColumnOption([], cap, Clear(a))
  }

  /** `clear()` leaves a sound store of the same type with no entries, whatever state it
      starts from. */
  lemma {:induction false} ClearEmpties(s: Store)
    ensures ShapeOf(Clear(s)) == ShapeOf(s) && Sound(Clear(s)) && Contents(Clear(s)) == []
  {
    match s
    case ColumnVec(_, _, v) => ClearEmpties(v);
    case Tuple2(a, b) => ClearEmpties(a); ClearEmpties(b);
    case Tuple3(a, b, c) => ClearEmpties(a); ClearEmpties(b); ClearEmpties(c);
    case ColumnResult(_, _, a, b) => ClearEmpties(a); ClearEmpties(b);
    case ColumnOption(_, _, a) => ClearEmpties(a);
    case _ =>
  }

  /** `clear()` retains every allocation: nothing is in use and all capacity is kept. */
  lemma {:induction false} ClearKeepsCapacity(s: Store)
    ensures HeapSize(Clear(s)) == (0, HeapSize(s).1)
  {
    match s
    case PrimVec(_, _, w) =>
      assert w * |Clear(s).items| == 0;
    case UnitCount(_) =>
    case ColumnString(_, _, _, _) =>
    case ColumnVec(_, _, v) => ClearKeepsCapacity(v);
    case Tuple2(a, b) => ClearKeepsCapacity(a); ClearKeepsCapacity(b);
    case Tuple3(a, b, c) => ClearKeepsCapacity(a); ClearKeepsCapacity(b); ClearKeepsCapacity(c);
    case ColumnResult(_, _, a, b) => ClearKeepsCapacity(a); ClearKeepsCapacity(b);
    case ColumnOption(_, _, a) => ClearKeepsCapacity(a);
  }

  /** A `ColumnString` or `ColumnVec` loses its leading bound to `clear()`, so the cleared
      store is primed only when its type holds neither. */
  lemma {:induction false} ClearPrimed(s: Store)
    ensures Primed(Clear(s)) <==> !ContainsBounds(ShapeOf(s))
  {
    match s
    case ColumnVec(_, _, v) => ClearPrimed(v);
    case Tuple2(a, b) => ClearPrimed(a); ClearPrimed(b);
    case Tuple3(a, b, c) => ClearPrimed(a); ClearPrimed(b); ClearPrimed(c);
    case ColumnResult(_, _, a, b) => ClearPrimed(a); ClearPrimed(b);
    case ColumnOption(_, _, a) => ClearPrimed(a);
    case _ =>
  }
}
