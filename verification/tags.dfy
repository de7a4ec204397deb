/** Tag arrays: the `indexes` of the Option and Result stores. Each tag names a side and an
    offset into that side's payload store; the k-th tag of a side should hold offset k. */
module Tags {
  import opened Values

  /** A `Result<usize, usize>` tag of the Result store. */
  datatype Slot = OkAt(offset: nat) | ErrAt(offset: nat)

  // ---- Option tags (`Option<usize>`) ----

  /** The `Some` tags hold 0, 1, ..., n-1 in order: the newest `Some` tag holds n-1 and the
      tags before it are numbered up to n-1. */
  ghost predicate OptionNumbered(tags: seq<Option<nat>>, n: nat)
    decreases |tags|
  {
    if tags == [] then n == 0
    else
      var front := tags[..|tags| - 1];
      match tags[|tags| - 1]
      case None => OptionNumbered(front, n)
      case Some(k) => n > 0 && k == n - 1 && OptionNumbered(front, n - 1)
  }

  /** The entries of an Option store, oldest first, read from the newest end: a `None` tag is
      `Absent`, a `Some` tag the newest remaining payload. */
  ghost function OptionEntries(tags: seq<Option<nat>>, p: seq<Value>): (r: seq<Value>)
    requires OptionNumbered(tags, |p|)
    ensures |r| == |tags|
    decreases |tags|
  {
    if tags == [] then []
    else
      var front := tags[..|tags| - 1];
      match tags[|tags| - 1]
      case None => OptionEntries(front, p) + [Absent]
      case Some(_) => OptionEntries(front, p[..|p| - 1]) + [Present(p[|p| - 1])]
  }

  /** Reading through the tags, as `index` does, agrees with the entries: the payload offset
      of a `Some` tag lies inside the payload. */
  lemma {:induction false} OptionEntriesAt(tags: seq<Option<nat>>, p: seq<Value>, i: nat)
    requires OptionNumbered(tags, |p|) && i < |tags|
    ensures tags[i].Some? ==>
      tags[i].value < |p| && OptionEntries(tags, p)[i] == Present(p[tags[i].value])
    ensures tags[i].None? ==> OptionEntries(tags, p)[i] == Absent
    decreases |tags|
  {
    if i < |tags| - 1 {
      var front := tags[..|tags| - 1];
      var q := if tags[|tags| - 1].Some? then p[..|p| - 1] else p;
      OptionEntriesAt(front, q, i);
    }
  }

  /** `copy(Some x)` pushes `Some(len)` and `x`; `copy(None)` pushes `None` alone. Both keep
      the numbering and append exactly the copied value to the entries. */
  lemma OptionEntriesPush(tags: seq<Option<nat>>, p: seq<Value>, v: Value)
    requires OptionNumbered(tags, |p|) && (v.Absent? || v.Present?)
    ensures var tags' := tags + [if v.Present? then Some(|p|) else None];
      var p' := p + (if v.Present? then [v.inner] else []);
      OptionNumbered(tags', |p'|) && OptionEntries(tags', p') == OptionEntries(tags, p) + [v]
  {
    var tags' := tags + [if v.Present? then Some(|p|) else None];
    var p' := p + (if v.Present? then [v.inner] else []);
    assert tags'[..|tags'| - 1] == tags;
    if v.Present? {
      assert p'[..|p'| - 1] == p && p'[|p'| - 1] == v.inner;
      assert OptionEntries(tags', p') == OptionEntries(tags, p) + [Present(v.inner)];
    } else {
      assert p' == p;
    }
  }

  // ---- Result tags (`Result<usize, usize>`) ----

  /** The Ok tags hold 0, 1, ..., ns-1 and the Err tags 0, 1, ..., nt-1, each side in order. */
  ghost predicate ResultNumbered(tags: seq<Slot>, ns: nat, nt: nat)
    decreases |tags|
  {
    if tags == [] then ns == 0 && nt == 0
    else
      var front := tags[..|tags| - 1];
      match tags[|tags| - 1]
      case OkAt(k) => ns > 0 && k == ns - 1 && ResultNumbered(front, ns - 1, nt)
      case ErrAt(k) => nt > 0 && k == nt - 1 && ResultNumbered(front, ns, nt - 1)
  }

  /** The entries of a Result store, oldest first, read from the newest end: each tag takes
      the newest remaining payload of its side. */
  ghost function ResultEntries(tags: seq<Slot>, sc: seq<Value>, tc: seq<Value>): (r: seq<Value>)
    requires ResultNumbered(tags, |sc|, |tc|)
    ensures |r| == |tags|
    decreases |tags|
  {
    if tags == [] then []
    else
      var front := tags[..|tags| - 1];
      match tags[|tags| - 1]
      case OkAt(_) => ResultEntries(front, sc[..|sc| - 1], tc) + [Ok(sc[|sc| - 1])]
      case ErrAt(_) => ResultEntries(front, sc, tc[..|tc| - 1]) + [Err(tc[|tc| - 1])]
  }

  /** Dropping the newest tag drops the newest payload of the side it names, and the newest
      entry. */
  lemma ResultEntriesPop(tags: seq<Slot>, sc: seq<Value>, tc: seq<Value>)
    requires ResultNumbered(tags, |sc|, |tc|) && tags != []
    ensures var front := tags[..|tags| - 1];
      if tags[|tags| - 1].OkAt? then
        |sc| > 0 && ResultNumbered(front, |sc| - 1, |tc|) &&
        ResultEntries(tags, sc, tc) == ResultEntries(front, sc[..|sc| - 1], tc) + [Ok(sc[|sc| - 1])]
      else
        |tc| > 0 && ResultNumbered(front, |sc|, |tc| - 1) &&
        ResultEntries(tags, sc, tc) == ResultEntries(front, sc, tc[..|tc| - 1]) + [Err(tc[|tc| - 1])]
  {
  }

  /** Reading through the tags, as `index` does, agrees with the entries: each offset lies
      inside its side's payload. */
  lemma {:induction false} ResultEntriesAt(tags: seq<Slot>, sc: seq<Value>, tc: seq<Value>, i: nat)
    requires ResultNumbered(tags, |sc|, |tc|) && i < |tags|
    ensures tags[i].OkAt? ==>
      tags[i].offset < |sc| && ResultEntries(tags, sc, tc)[i] == Ok(sc[tags[i].offset])
    ensures tags[i].ErrAt? ==>
      tags[i].offset < |tc| && ResultEntries(tags, sc, tc)[i] == Err(tc[tags[i].offset])
    decreases |tags|
  {
    if i < |tags| - 1 {
      var front := tags[..|tags| - 1];
      if tags[|tags| - 1].OkAt? {
        ResultEntriesAt(front, sc[..|sc| - 1], tc, i);
      } else {
        ResultEntriesAt(front, sc, tc[..|tc| - 1], i);
      }
    }
  }

  /** The intended copy: `Ok(x)` pushes `OkAt(|sc|)` and `x` onto the Ok side, `Err(y)` pushes
      `ErrAt(|tc|)` and `y` onto the Err side; either keeps the numbering and appends exactly
      the copied value. */
  lemma ResultEntriesPush(tags: seq<Slot>, sc: seq<Value>, tc: seq<Value>, v: Value)
    requires ResultNumbered(tags, |sc|, |tc|) && (v.Ok? || v.Err?)
    ensures var tags' := tags + [if v.Ok? then OkAt(|sc|) else ErrAt(|tc|)];
      var sc' := sc + (if v.Ok? then [v.ok] else []);
      var tc' := tc + (if v.Err? then [v.err] else []);
      ResultNumbered(tags', |sc'|, |tc'|) &&
      ResultEntries(tags', sc', tc') == ResultEntries(tags, sc, tc) + [v]
  {
    var tags' := tags + [if v.Ok? then OkAt(|sc|) else ErrAt(|tc|)];
    var sc' := sc + (if v.Ok? then [v.ok] else []);
    var tc' := tc + (if v.Err? then [v.err] else []);
    assert tags'[..|tags'| - 1] == tags;
    if v.Ok? {
      assert sc'[..|sc'| - 1] == sc && sc'[|sc'| - 1] == v.ok && tc' == tc;
    } else {
      assert tc'[..|tc'| - 1] == tc && tc'[|tc'| - 1] == v.err && sc' == sc;
    }
  }

  /** The tags determine the payload lengths they are numbered against. */
  lemma {:induction false} ResultNumberedUnique(tags: seq<Slot>, ns: nat, nt: nat, ms: nat, mt: nat)
    requires ResultNumbered(tags, ns, nt) && ResultNumbered(tags, ms, mt)
    ensures ns == ms && nt == mt
    decreases |tags|
  {
    if tags != [] {
      var front := tags[..|tags| - 1];
      if tags[|tags| - 1].OkAt? {
        ResultNumberedUnique(front, ns - 1, nt, ms - 1, mt);
      } else {
        ResultNumberedUnique(front, ns, nt - 1, ms, mt - 1);
      }
    }
  }

  /** What the Result store does for `Err(y)`: it pushes an `Ok` tag holding the Err side's
      length and grows the Err side. Afterwards the tags are not numbered against the
      payloads: there is one more Ok tag than Ok payloads. */
  lemma ErrAsOkBreaksNumbering(tags: seq<Slot>, ns: nat, nt: nat)
    requires ResultNumbered(tags, ns, nt)
    ensures !ResultNumbered(tags + [OkAt(nt)], ns, nt + 1)
  {
    var tags' := tags + [OkAt(nt)];
    assert tags'[..|tags'| - 1] == tags;
    if ResultNumbered(tags', ns, nt + 1) {
      ResultNumberedUnique(tags, ns, nt, ns - 1, nt + 1);
    }
  }
}
