/** `pop`: each store removes and returns its newest entry, `None` when it has none.

    The stores unwrap nested `pop`s and panic on columns out of lockstep, so `pop` is modelled
    on sound stores, where neither happens. */
module Popping {
  import opened Values
  import opened Offsets
  import opened Tags
  import opened Stores
  import opened Copying

  /** What every `pop` promises: the store stays sound with the same shape; it answers `None`
      exactly when it holds no entries, and then changes nothing; otherwise the answer is the
      newest entry and the store keeps the others. */
  ghost predicate Popped(s: Store, r: (Store, Option<Value>))
    requires Sound(s)
  {
    && Sound(r.0) && ShapeOf(r.0) == ShapeOf(s) && Primed(r.0) == Primed(s)
    && (r.1.None? <==> Contents(s) == [])
    && (r.1.None? ==> r.0 == s)
    && (r.1.Some? ==> Contents(s) == Contents(r.0) + [r.1.value])
  }

  /** The order of `s` reversed, as `Vec::reverse` leaves it. */
  function Reversed<T>(s: seq<T>): (r: seq<T>)
    ensures |r| == |s|
  {
    if s == [] then [] else Reversed(s[1..]) + [s[0]]
  }

  /** `pop()` on any store. */
  function Pop(s: Store): (r: (Store, Option<Value>))
    requires Sound(s)
    ensures Popped(s, r)
    decreases ShapeOf(s), 2, 0
  {
    match s
    case PrimVec(_, _, _) => PopPrim(s)
    case UnitCount(_) => PopUnit(s)
    case ColumnString(_, _, _, _) => PopText(s)
    case ColumnVec(_, _, _) => PopList(s)
    case Tuple2(_, _) => PopPair(s).value
    case Tuple3(_, _, _) => PopTriple(s).value
    case ColumnResult(_, _, _, _) => PopResult(s).value
    case ColumnOption(_, _, _) => PopOption(s)
  }

  /** `Vec::pop`; the capacity is kept. */
  function PopPrim(s: Store): (r: (Store, Option<Value>))
    requires s.PrimVec? && Sound(s)
    ensures Popped(s, r)
  {
    var xs := s.items;
    if xs == [] then (s, None)
    else
      var k := |xs| - 1;
      assert Prims(xs) == Prims(xs[..k]) + [Prim(xs[k])];
      (PrimVec(xs[..k], s.cap, s.width), Some(Prim(xs[k])))
  }

  /** The `usize` store counts down. */
  function PopUnit(s: Store): (r: (Store, Option<Value>))
    requires s.UnitCount? && Sound(s)
    ensures Popped(s, r)
  {
    if s.count > 0 then
      assert Units(s.count) == Units(s.count - 1) + [UnitValue];
      (UnitCount(s.count - 1), Some(UnitValue))
    else (s, None)
  }

  /** `ColumnString::pop`: drop the last bound and split the bytes off at the new last bound. */
  function PopText(s: Store): (r: (Store, Option<Value>))
    requires s.ColumnString? && Sound(s)
    ensures Popped(s, r)
  {
    var b := s.bounds;
    if |b| > 1 then
      var front := b[..|b| - 1];
      SegmentsPop(b, s.bytes, TextOf);
      var start := front[|front| - 1];
      (ColumnString(front, s.boundsCap, s.bytes[..start], s.bytesCap), Some(Text(s.bytes[start..])))
    else (s, None)
  }

  /** `ColumnVec::pop`: drop the last bound, pop the items after the new last bound from the
      nested store, newest first, and reverse them. */
  function PopList(s: Store): (r: (Store, Option<Value>))
    requires s.ColumnVec? && Sound(s)
    ensures Popped(s, r)
    decreases ShapeOf(s), 1, 0
  {
    var b, vals := s.bounds, s.values;
    if |b| > 1 then
      var front := b[..|b| - 1];
      SegmentsPop(b, Contents(vals), ListOf);
      var start := front[|front| - 1];
      var count := b[|b| - 1] - start;
      var p := PopMany(vals, count);
      ghost var c := Contents(vals);
      assert c[..start] == Contents(p.0) && c[start..] == Reversed(p.1);
      (ColumnVec(front, s.boundsCap, p.0), Some(List(Reversed(p.1))))
    else (s, None)
  }

  /** `count` pops in a row, the newest entry first. */
  function PopMany(s: Store, count: nat): (r: (Store, seq<Value>))
    requires Sound(s) && count <= |Contents(s)|
    ensures Sound(r.0) && ShapeOf(r.0) == ShapeOf(s) && Primed(r.0) == Primed(s)
    ensures |r.1| == count && Contents(s) == Contents(r.0) + Reversed(r.1)
    decreases ShapeOf(s), 3, count
  {
    if count == 0 then (s, [])
    else
      var p := Pop(s);
      var q := PopMany(p.0, count - 1);
      var popped := [p.1.value] + q.1;
      assert popped[1..] == q.1;
      (q.0, popped)
  }

  /** `pop` on a pair store pops both columns and pairs their answers; `None` is the
      "invariant violated" panic when one column answers and the other does not. Only the
      columns need to be sound: a `String` column that absorbed its first string as a base
      offset runs one entry behind the other, and then the second-to-last `pop` panics. */
  function PopPair(s: Store): (r: Option<(Store, Option<Value>)>)
    requires s.Tuple2? && Sound(s.c0) && Sound(s.c1)
    ensures r.None? <==> (Contents(s.c0) == []) != (Contents(s.c1) == [])
    ensures Sound(s) ==> r.Some? && Popped(s, r.value)
    decreases ShapeOf(s), 1, 0
  {
    var p, q := Pop(s.c0), Pop(s.c1);
    if p.1.Some? && q.1.Some? then
      PairPopped(s, p, q);
      Some((Tuple2(p.0, q.0), Some(Pair(p.1.value, q.1.value))))
    else if p.1.None? && q.1.None? then Some((Tuple2(p.0, q.0), None))
    else None
  }

  /** On a sound pair store, popping an entry from each column pops their pair. */
  lemma PairPopped(s: Store, p: (Store, Option<Value>), q: (Store, Option<Value>))
    requires s.Tuple2? && Sound(s.c0) && Sound(s.c1)
    requires Popped(s.c0, p) && Popped(s.c1, q) && p.1.Some? && q.1.Some?
    ensures Sound(s) ==> Popped(s, (Tuple2(p.0, q.0), Some(Pair(p.1.value, q.1.value))))
  {
    if Sound(s) {
      Zip2Push(Contents(p.0), Contents(q.0), p.1.value, q.1.value);
    }
  }

  /** `pop` on a triple store: the same for three columns; `None` is the panic when the
      columns do not all answer alike. */
  function PopTriple(s: Store): (r: Option<(Store, Option<Value>)>)
    requires s.Tuple3? && Sound(s.c0) && Sound(s.c1) && Sound(s.c2)
    ensures r.None? <==>
      !((Contents(s.c0) == [] && Contents(s.c1) == [] && Contents(s.c2) == []) ||
        (Contents(s.c0) != [] && Contents(s.c1) != [] && Contents(s.c2) != []))
    ensures Sound(s) ==> r.Some? && Popped(s, r.value)
    decreases ShapeOf(s), 1, 0
  {
    var p, q, u := Pop(s.c0), Pop(s.c1), Pop(s.c2);
    if p.1.Some? && q.1.Some? && u.1.Some? then
      TriplePopped(s, p, q, u);
      Some((Tuple3(p.0, q.0, u.0), Some(Triple(p.1.value, q.1.value, u.1.value))))
    else if p.1.None? && q.1.None? && u.1.None? then Some((Tuple3(p.0, q.0, u.0), None))
    else None
  }

  /** On a sound triple store, popping an entry from each column pops their triple. */
  lemma TriplePopped(s: Store, p: (Store, Option<Value>), q: (Store, Option<Value>), u: (Store, Option<Value>))
    requires s.Tuple3? && Sound(s.c0) && Sound(s.c1) && Sound(s.c2)
    requires Popped(s.c0, p) && Popped(s.c1, q) && Popped(s.c2, u)
    requires p.1.Some? && q.1.Some? && u.1.Some?
    ensures Sound(s) ==>
      Popped(s, (Tuple3(p.0, q.0, u.0), Some(Triple(p.1.value, q.1.value, u.1.value))))
  {
    if Sound(s) {
      Zip3Push(Contents(p.0), Contents(q.0), Contents(u.0), p.1.value, q.1.value, u.1.value);
    }
  }

  /** `ColumnResult::pop`: pop the newest tag, then `unwrap` the newest payload of the side the
      tag names; `None` is the panic when that side is empty. Only the payload stores need to
      be sound: the tags may be misnumbered, as after `copy(Err(_))`, and then the payload
      popped comes from the side the tag names, whichever side the value was copied to. */
  function PopResult(s: Store): (r: Option<(Store, Option<Value>)>)
    requires s.ColumnResult? && Sound(s.sStore) && Sound(s.tStore)
    ensures r.None? <==>
      s.indexes != [] &&
      if s.indexes[|s.indexes| - 1].OkAt? then Contents(s.sStore) == [] else Contents(s.tStore) == []
    ensures Sound(s) ==> r.Some? && Popped(s, r.value)
    decreases ShapeOf(s), 1, 0
  {
    var ix := s.indexes;
    if ix == [] then Some((s, None))
    else
      var front := ix[..|ix| - 1];
      if ix[|ix| - 1].OkAt? then
        var p := Pop(s.sStore);
        if p.1.None? then None
        else
          ResultOkPopped(s, p);
          Some((ColumnResult(front, s.indexesCap, p.0, s.tStore), Some(Ok(p.1.value))))
      else
        var p := Pop(s.tStore);
        if p.1.None? then None
        else
          ResultErrPopped(s, p);
          Some((ColumnResult(front, s.indexesCap, s.sStore, p.0), Some(Err(p.1.value))))
  }

  /** On a sound `ColumnResult` whose newest tag is `Ok`, popping `s_store` and the tag pops
      the newest entry. */
  lemma ResultOkPopped(s: Store, p: (Store, Option<Value>))
    requires s.ColumnResult? && Sound(s.sStore) && Sound(s.tStore)
    requires s.indexes != [] && s.indexes[|s.indexes| - 1].OkAt?
    requires Popped(s.sStore, p) && p.1.Some?
    ensures Sound(s) ==>
      Popped(s, (ColumnResult(s.indexes[..|s.indexes| - 1], s.indexesCap, p.0, s.tStore), Some(Ok(p.1.value))))
  {
    if Sound(s) {
      var ix, sc, tc := s.indexes, Contents(s.sStore), Contents(s.tStore);
      var front := ix[..|ix| - 1];
      assert sc[..|sc| - 1] == Contents(p.0);
      ResultEntriesPop(ix, sc, tc);
      var r := ColumnResult(front, s.indexesCap, p.0, s.tStore);
      assert Sound(r);
      assert Contents(s) == Contents(r) + [Ok(p.1.value)];
    }
  }

  /** On a sound `ColumnResult` whose newest tag is `Err`, popping `t_store` and the tag pops
      the newest entry. */
  lemma ResultErrPopped(s: Store, p: (Store, Option<Value>))
    requires s.ColumnResult? && Sound(s.sStore) && Sound(s.tStore)
    requires s.indexes != [] && s.indexes[|s.indexes| - 1].ErrAt?
    requires Popped(s.tStore, p) && p.1.Some?
    ensures Sound(s) ==>
      Popped(s, (ColumnResult(s.indexes[..|s.indexes| - 1], s.indexesCap, s.sStore, p.0), Some(Err(p.1.value))))
  {
    if Sound(s) {
      var ix, sc, tc := s.indexes, Contents(s.sStore), Contents(s.tStore);
      var front := ix[..|ix| - 1];
      assert tc[..|tc| - 1] == Contents(p.0);
      ResultEntriesPop(ix, sc, tc);
      var r := ColumnResult(front, s.indexesCap, s.sStore, p.0);
      assert Sound(r);
      assert Contents(s) == Contents(r) + [Err(p.1.value)];
    }
  }

  /** `ColumnOption::pop`: pop the newest tag, and the newest payload when it is `Some`. */
  function PopOption(s: Store): (r: (Store, Option<Value>))
    requires s.ColumnOption? && Sound(s)
    ensures Popped(s, r)
    decreases ShapeOf(s), 1, 0
  {
    var ix := s.tags;
    if ix == [] then (s, None)
    else
      var front := ix[..|ix| - 1];
      if ix[|ix| - 1].Some? then
        var p := Pop(s.tStore);
        ghost var c := Contents(s.tStore);
        assert c[..|c| - 1] == Contents(p.0);
        (ColumnOption(front, s.tagsCap, p.0), Some(Present(p.1.value)))
      else (ColumnOption(front, s.tagsCap, s.tStore), Some(Absent))
  }

  /** `ColumnVec::pop` as written: a loop of nested `pop`s into a vector, then a reverse. */
  method ColumnVecPop(s: Store) returns (r: (Store, Option<Value>))
    requires s.ColumnVec? && Sound(s)
    ensures r == PopList(s)
  {
    var b := s.bounds;
    if |b| > 1 {
      var front := b[..|b| - 1];
      SegmentsPop(b, Contents(s.values), ListOf);
      var count := b[|b| - 1] - front[|front| - 1];
      var vals := s.values;
      var result: seq<Value> := [];
      var k := 0;
      assert result + PopMany(vals, count).1 == PopMany(vals, count).1;
      while k < count
        invariant k <= count && Sound(vals) && count - k <= |Contents(vals)|
        invariant PopMany(s.values, count) == (PopMany(vals, count - k).0, result + PopMany(vals, count - k).1)
      {
        var p := Pop(vals);
        ghost var rest := PopMany(p.0, count - k - 1);
        assert PopMany(vals, count - k) == (rest.0, [p.1.value] + rest.1);
        assert result + ([p.1.value] + rest.1) == (result + [p.1.value]) + rest.1;
        result := result + [p.1.value];
        vals := p.0;
        k := k + 1;
      }
      assert result + [] == result;
      r := (ColumnVec(front, s.boundsCap, vals), Some(List(Reversed(result))));
    } else {
      r := (s, None);
    }
  }

  // ---------------------------------------------------------------------------------------
  // How `pop` relates to `copy` and `index`
  // ---------------------------------------------------------------------------------------

  /** `pop` does not look at capacities: stores that differ only in capacities pop the same
      value and are left differing only in capacities. */
  lemma {:induction false} PopIgnoresCap(a: Store, b: Store)
    requires Sound(a) && Sound(b) && Uncapped(a) == Uncapped(b)
    ensures Pop(a).1 == Pop(b).1 && Uncapped(Pop(a).0) == Uncapped(Pop(b).0)
    decreases ShapeOf(a), 0, 3
  {
    match a
    case PrimVec(_, _, _) => assert b.PrimVec?; PopIgnoresCapFlat(a, b);
    case UnitCount(_) => assert b.UnitCount?; PopIgnoresCapFlat(a, b);
    case ColumnString(_, _, _, _) => assert b.ColumnString?; PopIgnoresCapFlat(a, b);
    case ColumnVec(_, _, _) => assert b.ColumnVec?; PopIgnoresCapList(a, b);
    case Tuple2(_, _) => assert b.Tuple2?; PopIgnoresCapPair(a, b);
    case Tuple3(_, _, _) => assert b.Tuple3?; PopIgnoresCapTriple(a, b);
    case ColumnResult(_, _, _, _) => assert b.ColumnResult?; PopIgnoresCapResult(a, b);
    case ColumnOption(_, _, _) => assert b.ColumnOption?; PopIgnoresCapOption(a, b);
  }

  lemma PopIgnoresCapFlat(a: Store, b: Store)
    requires a.PrimVec? || a.UnitCount? || a.ColumnString?
    requires Sound(a) && Sound(b) && Uncapped(a) == Uncapped(b)
    ensures Pop(a).1 == Pop(b).1 && Uncapped(Pop(a).0) == Uncapped(Pop(b).0)
  {
    match a
    case PrimVec(_, _, _) =>
      assert Pop(a) == PopPrim(a) && Pop(b) == PopPrim(b);
    case UnitCount(_) =>
      assert Pop(a) == PopUnit(a) && Pop(b) == PopUnit(b);
    case ColumnString(_, _, _, _) =>
      assert Pop(a) == PopText(a) && Pop(b) == PopText(b);
  }

  lemma {:induction false} PopIgnoresCapList(a: Store, b: Store)
    requires a.ColumnVec? && b.ColumnVec? && Sound(a) && Sound(b)
    requires a.bounds == b.bounds && Uncapped(a.values) == Uncapped(b.values)
    ensures Pop(a).1 == Pop(b).1 && Uncapped(Pop(a).0) == Uncapped(Pop(b).0)
    decreases ShapeOf(a), 0, 0
  {
    var bs := a.bounds;
    if |bs| > 1 {
      PopListOfFull(a);
      PopListOfFull(b);
      PopManyIgnoresCap(a.values, b.values, bs[|bs| - 1] - bs[|bs| - 2]);
    } else {
      PopListOfNone(a);
      PopListOfNone(b);
    }
  }

  lemma {:induction false} PopIgnoresCapPair(a: Store, b: Store)
    requires a.Tuple2? && b.Tuple2? && Sound(a) && Sound(b)
    requires Uncapped(a.c0) == Uncapped(b.c0) && Uncapped(a.c1) == Uncapped(b.c1)
    ensures Pop(a).1 == Pop(b).1 && Uncapped(Pop(a).0) == Uncapped(Pop(b).0)
    decreases ShapeOf(a), 0, 0
  {
    PopIgnoresCap(a.c0, b.c0);
    PopIgnoresCap(a.c1, b.c1);
    PopPairParts(a);
    PopPairParts(b);
  }

  lemma {:induction false} PopIgnoresCapTriple(a: Store, b: Store)
    requires a.Tuple3? && b.Tuple3? && Sound(a) && Sound(b)
    requires Uncapped(a.c0) == Uncapped(b.c0) && Uncapped(a.c1) == Uncapped(b.c1)
    requires Uncapped(a.c2) == Uncapped(b.c2)
    ensures Pop(a).1 == Pop(b).1 && Uncapped(Pop(a).0) == Uncapped(Pop(b).0)
    decreases ShapeOf(a), 0, 0
  {
    PopIgnoresCap(a.c0, b.c0);
    PopIgnoresCap(a.c1, b.c1);
    PopIgnoresCap(a.c2, b.c2);
    PopTripleParts(a);
    PopTripleParts(b);
  }

  lemma {:induction false} PopIgnoresCapResult(a: Store, b: Store)
    requires a.ColumnResult? && b.ColumnResult? && Sound(a) && Sound(b) && a.indexes == b.indexes
    requires Uncapped(a.sStore) == Uncapped(b.sStore) && Uncapped(a.tStore) == Uncapped(b.tStore)
    ensures Pop(a).1 == Pop(b).1 && Uncapped(Pop(a).0) == Uncapped(Pop(b).0)
    decreases ShapeOf(a), 0, 2
  {
    PopResultIgnoresCap(a, b);
    assert Pop(a) == PopResult(a).value && Pop(b) == PopResult(b).value;
  }

  lemma {:induction false} PopResultIgnoresCap(a: Store, b: Store)
    requires a.ColumnResult? && b.ColumnResult? && a.indexes == b.indexes
    requires Sound(a.sStore) && Sound(a.tStore) && Sound(b.sStore) && Sound(b.tStore)
    requires Uncapped(a.sStore) == Uncapped(b.sStore) && Uncapped(a.tStore) == Uncapped(b.tStore)
    ensures PopResult(a).Some? == PopResult(b).Some?
    ensures PopResult(a).Some? ==>
      && PopResult(a).value.1 == PopResult(b).value.1
      && PopResult(a).value.0.indexes == PopResult(b).value.0.indexes
      && Uncapped(PopResult(a).value.0.sStore) == Uncapped(PopResult(b).value.0.sStore)
      && Uncapped(PopResult(a).value.0.tStore) == Uncapped(PopResult(b).value.0.tStore)
    decreases ShapeOf(a), 0, 1
  {
    var ix := a.indexes;
    if ix != [] {
      if ix[|ix| - 1].OkAt? {
        PopResultIgnoresCapOk(a, b);
      } else {
        PopResultIgnoresCapErr(a, b);
      }
    }
  }

  lemma {:induction false} PopResultIgnoresCapOk(a: Store, b: Store)
    requires a.ColumnResult? && b.ColumnResult? && a.indexes == b.indexes
    requires Sound(a.sStore) && Sound(a.tStore) && Sound(b.sStore) && Sound(b.tStore)
    requires Uncapped(a.sStore) == Uncapped(b.sStore) && Uncapped(a.tStore) == Uncapped(b.tStore)
    requires a.indexes != [] && a.indexes[|a.indexes| - 1].OkAt?
    ensures PopResult(a).Some? == PopResult(b).Some?
    ensures PopResult(a).Some? ==>
      && PopResult(a).value.1 == PopResult(b).value.1
      && PopResult(a).value.0.indexes == PopResult(b).value.0.indexes
      && Uncapped(PopResult(a).value.0.sStore) == Uncapped(PopResult(b).value.0.sStore)
      && Uncapped(PopResult(a).value.0.tStore) == Uncapped(PopResult(b).value.0.tStore)
    decreases ShapeOf(a), 0, 0
  {
    var front := a.indexes[..|a.indexes| - 1];
    var pa, pb := Pop(a.sStore), Pop(b.sStore);
    PopIgnoresCap(a.sStore, b.sStore);
    assert PopResult(a) == if pa.1.None? then None
      else Some((ColumnResult(front, a.indexesCap, pa.0, a.tStore), Some(Ok(pa.1.value))));
    assert PopResult(b) == if pb.1.None? then None
      else Some((ColumnResult(front, b.indexesCap, pb.0, b.tStore), Some(Ok(pb.1.value))));
  }

  lemma {:induction false} PopResultIgnoresCapErr(a: Store, b: Store)
    requires a.ColumnResult? && b.ColumnResult? && a.indexes == b.indexes
    requires Sound(a.sStore) && Sound(a.tStore) && Sound(b.sStore) && Sound(b.tStore)
    requires Uncapped(a.sStore) == Uncapped(b.sStore) && Uncapped(a.tStore) == Uncapped(b.tStore)
    requires a.indexes != [] && a.indexes[|a.indexes| - 1].ErrAt?
    ensures PopResult(a).Some? == PopResult(b).Some?
    ensures PopResult(a).Some? ==>
      && PopResult(a).value.1 == PopResult(b).value.1
      && PopResult(a).value.0.indexes == PopResult(b).value.0.indexes
      && Uncapped(PopResult(a).value.0.sStore) == Uncapped(PopResult(b).value.0.sStore)
      && Uncapped(PopResult(a).value.0.tStore) == Uncapped(PopResult(b).value.0.tStore)
    decreases ShapeOf(a), 0, 0
  {
    var front := a.indexes[..|a.indexes| - 1];
    var pa, pb := Pop(a.tStore), Pop(b.tStore);
    PopIgnoresCap(a.tStore, b.tStore);
    assert PopResult(a) == if pa.1.None? then None
      else Some((ColumnResult(front, a.indexesCap, a.sStore, pa.0), Some(Err(pa.1.value))));
    assert PopResult(b) == if pb.1.None? then None
      else Some((ColumnResult(front, b.indexesCap, b.sStore, pb.0), Some(Err(pb.1.value))));
  }

  lemma {:induction false} PopIgnoresCapOption(a: Store, b: Store)
    requires a.ColumnOption? && b.ColumnOption? && Sound(a) && Sound(b)
    requires a.tags == b.tags && Uncapped(a.tStore) == Uncapped(b.tStore)
    ensures Pop(a).1 == Pop(b).1 && Uncapped(Pop(a).0) == Uncapped(Pop(b).0)
    decreases ShapeOf(a), 0, 1
  {
    PopOptionIgnoresCap(a, b);
    assert Pop(a) == PopOption(a) && Pop(b) == PopOption(b);
  }

  lemma {:induction false} PopOptionIgnoresCap(a: Store, b: Store)
    requires a.ColumnOption? && b.ColumnOption? && Sound(a) && Sound(b)
    requires a.tags == b.tags && Uncapped(a.tStore) == Uncapped(b.tStore)
    ensures PopOption(a).1 == PopOption(b).1
    ensures PopOption(a).0.tags == PopOption(b).0.tags
    ensures Uncapped(PopOption(a).0.tStore) == Uncapped(PopOption(b).0.tStore)
    decreases ShapeOf(a), 0, 0
  {
    var ix := a.tags;
    if ix == [] {
      assert PopOption(a) == (a, None) && PopOption(b) == (b, None);
    } else {
      var front := ix[..|ix| - 1];
      if ix[|ix| - 1].Some? {
        PopIgnoresCap(a.tStore, b.tStore);
        var p, q := Pop(a.tStore), Pop(b.tStore);
        assert PopOption(a) == (ColumnOption(front, a.tagsCap, p.0), Some(Present(p.1.value)));
        assert PopOption(b) == (ColumnOption(front, b.tagsCap, q.0), Some(Present(q.1.value)));
      } else {
        assert PopOption(a) == (ColumnOption(front, a.tagsCap, a.tStore), Some(Absent));
        assert PopOption(b) == (ColumnOption(front, b.tagsCap, b.tStore), Some(Absent));
      }
    }
  }

  lemma {:induction false} PopManyIgnoresCap(a: Store, b: Store, count: nat)
    requires Sound(a) && Sound(b) && Uncapped(a) == Uncapped(b)
    requires count <= |Contents(a)| && count <= |Contents(b)|
    ensures PopMany(a, count).1 == PopMany(b, count).1
    ensures Uncapped(PopMany(a, count).0) == Uncapped(PopMany(b, count).0)
    decreases ShapeOf(a), 1, count
  {
    if count > 0 {
      PopIgnoresCap(a, b);
      PopManyIgnoresCap(Pop(a).0, Pop(b).0, count - 1);
    }
  }

  /** `count` pops of a `Vec` drop its last `count` elements. */
  lemma {:induction false} PopManyPrim(s: Store, count: nat)
    requires s.PrimVec? && Sound(s) && count <= |s.items|
    ensures PopMany(s, count).0 == PrimVec(s.items[..|s.items| - count], s.cap, s.width)
    decreases count
  {
    if count > 0 {
      var p := Pop(s);
      assert p.0.items == s.items[..|s.items| - 1];
      PopManyPrim(p.0, count - 1);
      assert p.0.items[..|p.0.items| - (count - 1)] == s.items[..|s.items| - count];
    }
  }

  /** `count` pops of the counter take `count` off it. */
  lemma {:induction false} PopManyUnit(s: Store, count: nat)
    requires s.UnitCount? && count <= s.count
    ensures PopMany(s, count).0 == UnitCount(s.count - count)
    decreases count
  {
    if count > 0 {
      PopManyUnit(Pop(s).0, count - 1);
    }
  }

  /** `pop` after `copy` restores every bound, byte, element, tag and counter of the store;
      only capacities may have grown. This holds whenever the copied value appends (see
      `CopyAppends`). */
  lemma {:induction false} PopRestoresStore(s: Store, v: Value)
    requires Sound(s) && NoErr(v) && HasShape(v, ShapeOf(s)) && PrimedFor(s, v)
    ensures Copy(s, v).Some? && Sound(Copy(s, v).value)
    ensures Uncapped(Pop(Copy(s, v).value).0) == Uncapped(s)
    decreases ShapeOf(s), 0, 1
  {
    CopyAppends(s, v);
    var r := Copy(s, v).value;
    match s
    case PrimVec(xs, _, _) =>
      assert r.items[..|xs|] == xs;
    case UnitCount(_) =>
    case ColumnString(b, _, bytes, _) =>
      assert r.bounds[..|b|] == b;
      assert r.bytes[..|bytes|] == bytes;
    case ColumnVec(_, _, _) => PopRestoresStoreList(s, v);
    case Tuple2(_, _) => PopRestoresStorePair(s, v);
    case Tuple3(_, _, _) => PopRestoresStoreTriple(s, v);
    case ColumnResult(_, _, _, _) => PopRestoresStoreResult(s, v);
    case ColumnOption(_, _, _) => PopRestoresStoreOption(s, v);
  }

  lemma {:induction false} PopRestoresStoreList(s: Store, v: Value)
    requires s.ColumnVec? && Sound(s) && NoErr(v) && HasShape(v, ShapeOf(s)) && PrimedFor(s, v)
    ensures Copy(s, v).Some? && Sound(Copy(s, v).value)
    ensures Uncapped(Pop(Copy(s, v).value).0) == Uncapped(s)
    decreases ShapeOf(s), 0, 0
  {
    var b, vals := s.bounds, s.values;
    CopySoundList(s, v);
    CopySliceSound(vals, v.items);
    PopManyUndoesCopySlice(vals, v.items);
    var vals' := CopySlice(vals, v.items).value;
    var r := ColumnVec(b + [Len(vals')], Grown(s.boundsCap, |b| + 1), vals');
    assert Copy(s, v) == Some(r);
    assert Len(vals') == b[|b| - 1] + |v.items|;
    PopListUndoesPush(r, b, vals, |v.items|);
  }

  /** Popping a list whose bound was pushed `n` past `b`'s last pops `n` nested entries: when
      those pops restore `vals`, the pop restores bounds `b` over `vals`. */
  lemma PopListUndoesPush(r: Store, b: seq<nat>, vals: Store, n: nat)
    requires r.ColumnVec? && Sound(r) && |b| > 0 && r.bounds == b + [b[|b| - 1] + n]
    requires n <= |Contents(r.values)|
    requires Uncapped(PopMany(r.values, n).0) == Uncapped(vals)
    ensures Uncapped(Pop(r).0) == ColumnVec(b, 0, Uncapped(vals))
  {
    PopListOfFull(r);
    assert r.bounds[..|b|] == b;
  }

  /** A list store without lists pops nothing. */
  lemma PopListOfNone(t: Store)
    requires t.ColumnVec? && Sound(t) && |t.bounds| <= 1
    ensures Pop(t) == (t, None)
  {
    assert Pop(t) == PopList(t);
  }

  /** A list store with at least one list pops that list's items off its nested store. */
  lemma PopListOfFull(t: Store)
    requires t.ColumnVec? && Sound(t) && |t.bounds| > 1
    ensures var b := t.bounds;
      Sound(t.values) && 0 <= b[|b| - 1] - b[|b| - 2] <= |Contents(t.values)|
    ensures var b := t.bounds; var p := PopMany(t.values, b[|b| - 1] - b[|b| - 2]);
      Pop(t) == (ColumnVec(b[..|b| - 1], t.boundsCap, p.0), Some(List(Reversed(p.1))))
  {
    assert Pop(t) == PopList(t);
  }

  lemma {:induction false} PopRestoresStorePair(s: Store, v: Value)
    requires s.Tuple2? && Sound(s) && NoErr(v) && HasShape(v, ShapeOf(s)) && PrimedFor(s, v)
    ensures Copy(s, v).Some? && Sound(Copy(s, v).value)
    ensures Uncapped(Pop(Copy(s, v).value).0) == Uncapped(s)
    decreases ShapeOf(s), 0, 0
  {
    CopyAppends(s, v);
    PopRestoresStore(s.c0, v.v0);
    PopRestoresStore(s.c1, v.v1);
    var r := Copy(s, v).value;
    assert r == Tuple2(Copy(s.c0, v.v0).value, Copy(s.c1, v.v1).value);
    PopPairParts(r);
  }

  lemma {:induction false} PopRestoresStoreTriple(s: Store, v: Value)
    requires s.Tuple3? && Sound(s) && NoErr(v) && HasShape(v, ShapeOf(s)) && PrimedFor(s, v)
    ensures Copy(s, v).Some? && Sound(Copy(s, v).value)
    ensures Uncapped(Pop(Copy(s, v).value).0) == Uncapped(s)
    decreases ShapeOf(s), 0, 0
  {
    CopyAppends(s, v);
    PopRestoresStore(s.c0, v.v0);
    PopRestoresStore(s.c1, v.v1);
    PopRestoresStore(s.c2, v.v2);
    var r := Copy(s, v).value;
    assert r == Tuple3(Copy(s.c0, v.v0).value, Copy(s.c1, v.v1).value, Copy(s.c2, v.v2).value);
    PopTripleParts(r);
  }

  /** A pair store pops each of its columns, and answers a pair when they all answer. */
  lemma PopPairParts(t: Store)
    requires t.Tuple2? && Sound(t)
    ensures Sound(t.c0) && Sound(t.c1)
    ensures var p, q := Pop(t.c0), Pop(t.c1);
      && Pop(t).0 == Tuple2(p.0, q.0)
      && Pop(t).1 == if p.1.Some? && q.1.Some? then Some(Pair(p.1.value, q.1.value)) else None
  {
    assert Pop(t) == PopPair(t).value;
  }

  /** A triple store pops each of its columns, and answers a triple when they all answer. */
  lemma PopTripleParts(t: Store)
    requires t.Tuple3? && Sound(t)
    ensures Sound(t.c0) && Sound(t.c1) && Sound(t.c2)
    ensures var p, q, u := Pop(t.c0), Pop(t.c1), Pop(t.c2);
      && Pop(t).0 == Tuple3(p.0, q.0, u.0)
      && Pop(t).1 == if p.1.Some? && q.1.Some? && u.1.Some? then Some(Triple(p.1.value, q.1.value, u.1.value)) else None
  {
    assert Pop(t) == PopTriple(t).value;
  }

  lemma {:induction false} PopRestoresStoreResult(s: Store, v: Value)
    requires s.ColumnResult? && Sound(s) && NoErr(v) && HasShape(v, ShapeOf(s)) && PrimedFor(s, v)
    ensures Copy(s, v).Some? && Sound(Copy(s, v).value)
    ensures Uncapped(Pop(Copy(s, v).value).0) == Uncapped(s)
    decreases ShapeOf(s), 0, 0
  {
    var ix, sS := s.indexes, s.sStore;
    CopySoundResult(s, v);
    PopRestoresStore(sS, v.ok);
    CopyAppends(sS, v.ok);
    var sS' := Copy(sS, v.ok).value;
    var r := ColumnResult(ix + [OkAt(|Contents(sS)|)], Grown(s.indexesCap, |ix| + 1), sS', s.tStore);
    assert Copy(s, v) == Some(r);
    PopOkParts(r);
    assert r.indexes[..|ix|] == ix;
  }

  /** Popping a sound `ColumnResult` whose newest tag is `Ok` pops `s_store` and that tag. */
  lemma PopOkParts(t: Store)
    requires t.ColumnResult? && Sound(t) && t.indexes != [] && t.indexes[|t.indexes| - 1].OkAt?
    ensures Sound(t.sStore) && Sound(t.tStore)
    ensures Pop(t).0 == ColumnResult(t.indexes[..|t.indexes| - 1], t.indexesCap, Pop(t.sStore).0, t.tStore)
  {
    assert Pop(t) == PopResult(t).value;
  }

  lemma {:induction false} PopRestoresStoreOption(s: Store, v: Value)
    requires s.ColumnOption? && Sound(s) && NoErr(v) && HasShape(v, ShapeOf(s)) && PrimedFor(s, v)
    ensures Copy(s, v).Some? && Sound(Copy(s, v).value)
    ensures Uncapped(Pop(Copy(s, v).value).0) == Uncapped(s)
    decreases ShapeOf(s), 0, 0
  {
    var ix, t := s.tags, s.tStore;
    CopySoundOption(s, v);
    if v.Present? {
      PopRestoresStore(t, v.inner);
      CopyAppends(t, v.inner);
    }
    assert (ix + [Copy(s, v).value.tags[|ix|]])[..|ix|] == ix;
  }

  /** `count` pops after `copy_slice` of `count` items restore the store, up to capacities. */
  lemma {:induction false} PopManyUndoesCopySlice(s: Store, items: seq<Value>)
    requires Sound(s) && Primed(s) && AllNoErr(items) && AllHaveShape(items, ShapeOf(s))
    ensures CopySlice(s, items).Some? && Sound(CopySlice(s, items).value)
    ensures |items| <= |Contents(CopySlice(s, items).value)|
    ensures Uncapped(PopMany(CopySlice(s, items).value, |items|).0) == Uncapped(s)
    decreases ShapeOf(s), 2, 0
  {
    CopySliceSound(s, items);
    var r := CopySlice(s, items).value;
    match s
    case PrimVec(xs, _, _) =>
      assert forall x <- items :: x.Prim?;
      PopManyPrim(r, |items|);
      assert r.items[..|r.items| - |items|] == xs;
    case UnitCount(_) =>
      PopManyUnit(r, |items|);
    case _ =>
      PopManyUndoesCopyEach(s, items);
  }

  lemma {:induction false} PopManyUndoesCopyEach(s: Store, items: seq<Value>)
    requires Sound(s) && Primed(s) && AllNoErr(items) && AllHaveShape(items, ShapeOf(s))
    ensures CopyEach(s, items).Some? && Sound(CopyEach(s, items).value)
    ensures |items| <= |Contents(CopyEach(s, items).value)|
    ensures Uncapped(PopMany(CopyEach(s, items).value, |items|).0) == Uncapped(s)
    decreases ShapeOf(s), 1, |items|
  {
    if items != [] {
      var k := |items| - 1;
      var front, x := items[..k], items[k];
      CopyEachLast(s, items);
      PopManyUndoesCopyEach(s, front);
      CopyEachPrimed(s, front);
      var m := CopyEach(s, front).value;
      assert CopyEach(s, items) == Copy(m, x);
      PopManyAfterCopy(m, x, k);
    }
  }

  /** Popping `k + 1` entries after a `copy` pops the copied entry, then `k` entries as if the
      copy had not happened. */
  lemma {:induction false} PopManyAfterCopy(m: Store, x: Value, k: nat)
    requires Sound(m) && Primed(m) && NoErr(x) && HasShape(x, ShapeOf(m)) && k <= |Contents(m)|
    ensures Copy(m, x).Some? && Sound(Copy(m, x).value)
    ensures k + 1 <= |Contents(Copy(m, x).value)|
    ensures Uncapped(PopMany(Copy(m, x).value, k + 1).0) == Uncapped(PopMany(m, k).0)
    decreases ShapeOf(m), 0, 2
  {
    PopRestoresStore(m, x);
    CopyAppends(m, x);
    var t := Copy(m, x).value;
    var p := Pop(t);
    assert PopMany(t, k + 1).0 == PopMany(p.0, k).0;
    PopManyIgnoresCap(p.0, m, k);
  }

  /** `pop` undoes `copy`: copying an `Err`-free value into a sound store, whose parts the value
      reaches have their bounds, and popping returns that value, restores the entries, and
      leaves as many bytes in use as before. */
  lemma PopUndoesCopy(s: Store, v: Value)
    requires Sound(s) && NoErr(v) && HasShape(v, ShapeOf(s)) && PrimedFor(s, v)
    ensures Copy(s, v).Some? && Sound(Copy(s, v).value)
    ensures var p := Pop(Copy(s, v).value);
      && p.1 == Some(v) && Contents(p.0) == Contents(s)
      && Primed(p.0) == Primed(s) && HeapSize(p.0).0 == HeapSize(s).0
  {
    CopyAppends(s, v);
    PopRestoresStore(s, v);
    var r := Copy(s, v).value;
    var p := Pop(r);
    assert Contents(r)[..|Contents(r)| - 1] == Contents(s);
    assert Uncapped(p.0) == Uncapped(s);
    UncappedKeeps(p.0);
    UncappedKeeps(s);
  }

  /** `copy(Err(y))` followed by `pop` never gives back `Err(y)`: the `Ok` tag it pushed makes
      `pop` return the newest `Ok` payload instead, or panic when there is none. */
  lemma ErrCopyPopsOk(s: Store, v: Value)
    requires s.ColumnResult? && Sound(s) && HasShape(v, ShapeOf(s)) && PrimedFor(s, v)
    requires v.Err? && NoErr(v.err)
    ensures Copy(s, v).Some?
    ensures var r := Copy(s, v).value; r.ColumnResult? && Sound(r.sStore) && Sound(r.tStore)
    ensures PopResult(Copy(s, v).value).None? <==> Contents(s.sStore) == []
    ensures var c := Contents(s.sStore);
      c != [] ==> PopResult(Copy(s, v).value).value.1 == Some(Ok(c[|c| - 1]))
  {
    var sS, tS := s.sStore, s.tStore;
    CopyAppends(tS, v.err);
    var t' := Copy(tS, v.err).value;
    var r := ColumnResult(s.indexes + [OkAt(Len(tS))], Grown(s.indexesCap, |s.indexes| + 1), sS, t');
    assert Copy(s, v) == Some(r);
    if Contents(sS) != [] {
      var c := Contents(sS);
      assert c == Contents(Pop(sS).0) + [Pop(sS).1.value];
    }
  }

  /** On a `Vec`, `pop` after `copy` restores the elements; only the capacity may have grown. */
  lemma PopRestoresVec(s: Store, v: Value)
    requires s.PrimVec? && Sound(s) && HasShape(v, ShapeOf(s))
    ensures Copy(s, v).Some? && Sound(Copy(s, v).value)
    ensures Pop(Copy(s, v).value).0.items == s.items
  {
    CopySoundPrim(s, v);
    var r := Copy(s, v).value;
    assert r.items[..|s.items|] == s.items;
  }

  /** On a `ColumnString` with bounds, `pop` after `copy` restores the bounds and the bytes. */
  lemma PopRestoresText(s: Store, v: Value)
    requires s.ColumnString? && Sound(s) && s.bounds != [] && HasShape(v, ShapeOf(s))
    ensures Copy(s, v).Some? && Sound(Copy(s, v).value)
    ensures var p := Pop(Copy(s, v).value).0;
      p.bounds == s.bounds && p.bytes == s.bytes
  {
    CopySoundText(s, v);
    var r := Copy(s, v).value;
    assert r.bounds[..|s.bounds|] == s.bounds;
    assert r.bytes[..|s.bytes|] == s.bytes;
  }

  /** On a `ColumnVec` over a primed store, `pop` after `copy` restores the bounds and the
      nested store's entries. */
  lemma PopRestoresList(s: Store, v: Value)
    requires s.ColumnVec? && Sound(s) && Primed(s) && NoErr(v) && HasShape(v, ShapeOf(s))
    ensures Copy(s, v).Some? && Sound(Copy(s, v).value)
    ensures var p := Pop(Copy(s, v).value).0;
      p.bounds == s.bounds && Contents(p.values) == Contents(s.values)
  {
    CopySoundList(s, v);
    CopySliceSound(s.values, v.items);
    var r := Copy(s, v).value;
    assert r.bounds[..|s.bounds|] == s.bounds;
    var p := PopList(r).0;
    var c := Contents(r.values);
    var n := |Contents(s.values)|;
    assert r.bounds[|r.bounds| - 2] == n;
    assert c[..n] == Contents(s.values);
  }

  /** `pop` returns what `index(len() - 1)`, the `last` entry, views. */
  lemma PopIsLast(s: Store)
    requires Sound(s) && Contents(s) != []
    ensures Valid(s) && IndexOk(s, |Contents(s)| - 1)
    ensures ViewOk(Index(s, |Contents(s)| - 1))
    ensures Pop(s).1 == Some(ViewValue(Index(s, |Contents(s)| - 1)))
  {
    var i := |Contents(s)| - 1;
    IndexAgrees(s, i);
    var p := Pop(s);
    assert Contents(s) == Contents(p.0) + [p.1.value];
    assert Contents(s)[i] == p.1.value;
  }
}
