/** The logical values a columnar store holds, and the shapes that classify them.
    A Rust `T: Columnable` is modelled by a `Shape`; a value of that type by a `Value`. */
module Values {

  /** A byte of UTF-8 text. */
  type Byte = bv8

  datatype Option<T> = None | Some(value: T)

  /** The shapes that have a store: primitives (kept in a `Vec<T>`; a primitive type is known
      here only by its width, `size_of::<T>()`), `()`, `String`, `Vec<T>`, 2- and 3-tuples,
      `Result<S, T>` and `Option<T>`. */
  datatype Shape =
    | FlatShape(width: nat)
    | UnitShape
    | TextShape
    | ListShape(elem: Shape)
    | PairShape(first: Shape, second: Shape)
    | TripleShape(first: Shape, second: Shape, third: Shape)
    | ResultShape(ok: Shape, err: Shape)
    | OptionShape(elem: Shape)

  /** Owned values, as `pop` returns them and `copy` receives them. Primitives are integers. */
  datatype Value =
    | Prim(n: int)
    | UnitValue
    | Text(bytes: seq<Byte>)
    | List(items: seq<Value>)
    | Pair(v0: Value, v1: Value)
    | Triple(v0: Value, v1: Value, v2: Value)
    | Ok(ok: Value)
    | Err(err: Value)
    | Absent
    | Present(inner: Value)

  /** `v` is a value of the Rust type that `sh` stands for. */
  ghost predicate HasShape(v: Value, sh: Shape)
    decreases v
  {
    match sh
    case FlatShape(_) => v.Prim?
    case UnitShape => v.UnitValue?
    case TextShape => v.Text?
    case ListShape(e) => v.List? && forall x <- v.items :: HasShape(x, e)
    case PairShape(a, b) => v.Pair? && HasShape(v.v0, a) && HasShape(v.v1, b)
    case TripleShape(a, b, c) =>
      v.Triple? && HasShape(v.v0, a) && HasShape(v.v1, b) && HasShape(v.v2, c)
    case ResultShape(a, b) =>
      (v.Ok? && HasShape(v.ok, a)) || (v.Err? && HasShape(v.err, b))
    case OptionShape(e) => v.Absent? || (v.Present? && HasShape(v.inner, e))
  }

  /** No `Err` occurs anywhere inside `v`: the values the Result store keeps faithfully. */
  ghost predicate NoErr(v: Value)
    decreases v
  {
    match v
    case Prim(_) => true
    case UnitValue => true
    case Text(_) => true
    case List(items) => forall x <- items :: NoErr(x)
    case Pair(a, b) => NoErr(a) && NoErr(b)
    case Triple(a, b, c) => NoErr(a) && NoErr(b) && NoErr(c)
    case Ok(a) => NoErr(a)
    case Err(_) => false
    case Absent => true
    case Present(a) => NoErr(a)
  }

  ghost predicate AllNoErr(items: seq<Value>) {
    forall x <- items :: NoErr(x)
  }

  ghost predicate AllHaveShape(items: seq<Value>, sh: Shape) {
    forall x <- items :: HasShape(x, sh)
  }

  /** Some `String` occurs inside the shape: its default store starts with empty bounds. */
  predicate ContainsText(sh: Shape) {
    match sh
    case FlatShape(_) => false
    case UnitShape => false
    case TextShape => true
    case ListShape(e) => ContainsText(e)
    case PairShape(a, b) => ContainsText(a) || ContainsText(b)
    case TripleShape(a, b, c) => ContainsText(a) || ContainsText(b) || ContainsText(c)
    case ResultShape(a, b) => ContainsText(a) || ContainsText(b)
    case OptionShape(e) => ContainsText(e)
  }

  /** Some `String` or `Vec` occurs in the shape: `clear` leaves its bounds empty. */
  predicate ContainsBounds(sh: Shape) {
    match sh
    case FlatShape(_) => false
    case UnitShape => false
    case TextShape => true
    case ListShape(_) => true
    case PairShape(a, b) => ContainsBounds(a) || ContainsBounds(b)
    case TripleShape(a, b, c) => ContainsBounds(a) || ContainsBounds(b) || ContainsBounds(c)
    case ResultShape(a, b) => ContainsBounds(a) || ContainsBounds(b)
    case OptionShape(e) => ContainsBounds(e)
  }

  function TextOf(bytes: seq<Byte>): Value { Text(bytes) }

  function ListOf(items: seq<Value>): Value { List(items) }

  /** The values held by a `Vec` of primitives. */
  function Prims(xs: seq<int>): (r: seq<Value>)
    ensures |r| == |xs| && forall i :: 0 <= i < |xs| ==> r[i] == Prim(xs[i])
  {
    seq(|xs|, i requires 0 <= i < |xs| => Prim(xs[i]))
  }

  /** `n` copies of `()`. */
  function Units(n: nat): (r: seq<Value>)
    ensures |r| == n && forall i :: 0 <= i < n ==> r[i] == UnitValue
  {
    seq(n, _ => UnitValue)
  }

  /** The entries of a pair store: its two field stores read in lockstep. */
  function Zip2(a: seq<Value>, b: seq<Value>): (r: seq<Value>)
    requires |a| == |b|
    ensures |r| == |a| && forall i :: 0 <= i < |a| ==> r[i] == Pair(a[i], b[i])
  {
    seq(|a|, i requires 0 <= i < |a| => Pair(a[i], b[i]))
  }

  /** The entries of a triple store. */
  function Zip3(a: seq<Value>, b: seq<Value>, c: seq<Value>): (r: seq<Value>)
    requires |a| == |b| == |c|
    ensures |r| == |a| && forall i :: 0 <= i < |a| ==> r[i] == Triple(a[i], b[i], c[i])
  {
    seq(|a|, i requires 0 <= i < |a| => Triple(a[i], b[i], c[i]))
  }

  /** Appending one field value to each column appends their pair to the entries. */
  lemma Zip2Push(a: seq<Value>, b: seq<Value>, x: Value, y: Value)
    requires |a| == |b|
    ensures Zip2(a + [x], b + [y]) == Zip2(a, b) + [Pair(x, y)]
  {
  }

  /** Appending one field value to each of three columns appends their triple. */
  lemma Zip3Push(a: seq<Value>, b: seq<Value>, c: seq<Value>, x: Value, y: Value, z: Value)
    requires |a| == |b| == |c|
    ensures Zip3(a + [x], b + [y], c + [z]) == Zip3(a, b, c) + [Triple(x, y, z)]
  {
  }

  /** What a copy of `items` adds to a store's entries: all of them, except that a store with
      empty bounds turns the first copied entry into its base offset. */
  function Kept(primed: bool, items: seq<Value>): seq<Value> {
    if primed || items == [] then items else items[1..]
  }

  /** Capacity of a `Vec` after it must hold `needed` elements: unchanged when it suffices,
      otherwise at least doubled (a stand-in for the allocator's amortised growth). */
  function Grown(cap: nat, needed: nat): (c: nat)
    ensures c >= cap && c >= needed
    ensures needed <= cap ==> c == cap
  {
    if needed <= cap then cap else if needed <= 2 * cap then 2 * cap else needed
  }

  /** The integers inside a slice of primitive values. */
  function PrimsOf(items: seq<Value>): (r: seq<int>)
    requires forall x <- items :: x.Prim?
    ensures Prims(r) == items
  {
    var r := seq(|items|, i requires 0 <= i < |items| => items[i].n);
    assert forall i :: 0 <= i < |items| ==> items[i] in items;
    assert Prims(r) == items;
    r
  }

  /** Each copied entry is kept, except the first when the store starts without bounds. */
  lemma KeptAppend(primed: bool, front: seq<Value>, x: Value)
    ensures Kept(primed, front + [x]) == Kept(primed, front) + Kept(primed || front != [], [x])
  {
    if !primed && front != [] {
      assert (front + [x])[1..] == front[1..] + [x];
    }
  }

  /** Chaining what a run of copies keeps with what one more copy keeps. */
  lemma KeptChain(c0: seq<Value>, c1: seq<Value>, c2: seq<Value>, primed: bool, front: seq<Value>, x: Value)
    requires c1 == c0 + Kept(primed, front)
    requires c2 == c1 + Kept(primed || front != [], [x])
    ensures c2 == c0 + Kept(primed, front + [x])
  {
    KeptAppend(primed, front, x);
  }

  lemma MulMono(a: nat, b: nat, c: nat)
    ensures b <= c ==> a * b <= a * c
  {
  }
}
