# Columnar stores, modelled in Dafny

The Rust crate lays out a `Vec<T>` of compound values as a "struct of arrays": a store per
type, with the `Columnar` trait as the contract every store meets. The operations are
`push`, `copy`, `copy_slice`, `len`, `is_empty`, `pop`, `index`, `last`, `clear` and
`heap_size`. The stores are:

- `Vec<T>` for primitives;
- a `usize` counter for `()`;
- `ColumnString`: a `bounds` offset array over a byte buffer;
- `ColumnVec<TC>`: a `bounds` array over a nested store, indexed through `ColumnVecRef`;
- pairs and triples of stores;
- `ColumnResult`: a tag array with an `Ok` and an `Err` store;
- `ColumnOption`: a tag array with a payload store.

`Columnable::as_columns` builds a store by pushing a vector's values one at a time into a
default store.

The model follows the code as written, including where the code departs from the documented
design:

- `ColumnString` derives `Default`, so its bounds start empty, not at `[0]`. The first
  string copied into a fresh store becomes the base offset and is never an entry. `len()`
  on the fresh store underflows.
- `clear` empties the bounds of `ColumnString` and `ColumnVec`, dropping the leading `0`.
- Because of the first point, a tuple holding a `String` has its string column one entry
  behind the others.
  Its `pop` returns the newest tuple until the string column runs out, then panics with
  "invariant violated" while the other columns still hold an entry.
- `ColumnResult::copy` of `Err(y)` records an `Ok(t_store.len())` tag, not an `Err` tag.
- `ColumnOption::heap_size` measures its tags at the size of `Result<usize, usize>`.

## Layout of the model

- `values.dfy` (`Values`): the values a store holds (`Value`) and the Rust types that
  classify them (`Shape`).
- `offsets.dfy` (`Offsets`): bounds arrays and the entries they delimit.
- `tags.dfy` (`Tags`): the tag arrays of `ColumnResult` and `ColumnOption`, their
  numbering, and the entries they route to.
- `stores.dfy` (`Stores`): the `Store` datatype (one constructor per store) and three
  predicates:
  - `Valid`: what every operation keeps.
  - `Sound`: the designed layout. `Contents`, the ordered entries, is defined only for a
    sound store.
  - `Primed`: every `ColumnString` and `ColumnVec` inside has a base offset.

  It also holds `len`, `is_empty`, `index`, `last`, `ColumnVecRef`, `heap_size` and
  `clear`.
- `copying.dfy` (`Copying`): `copy`/`push`, `copy_slice`, and the trait's default
  `copy_slice` loop.
- `popping.dfy` (`Popping`): `pop` for every store, and the `ColumnVec::pop` loop.
- `columnable.dfy` (`Columnable`): `Default` for every store, and `as_columns`.

A store owns the stores nested in it, so a `&mut self` operation is a function from the old
store to the new one. `copy` can panic when a nested `len()` underflows; that result is
`None`.

## Model

| member | source | states |
|---|---|---|
| Stores.Len | src/lib.rs:25 | `len()` of a sound store is its number of entries |
| Stores.IsEmpty | src/lib.rs:26 | `is_empty()` holds exactly when a sound store has no entries |
| Stores.LenDefined | src/lib.rs:155 | `len()` of `ColumnString` and `ColumnVec` is `bounds.len() - 1`, which does not underflow on a primed store or on a sound store with entries |
| Stores.IndexOk | src/lib.rs:35 | indexing any entry of a sound store does not panic: every vector read is long enough and every tag points inside its payload |
| Stores.Index | src/lib.rs:35 | `index(i)` of a sound store, for every i below its number of entries, views exactly its i-th entry. The unit store answers `&()` and `Vec` the element at i |
| Stores.IndexText | src/lib.rs:159-163 | `ColumnString::index(i)` is `values[bounds[i]..bounds[i+1]]`, which is the i-th string of a sound store |
| Stores.IndexList | src/lib.rs:247-254 | `ColumnVec::index(i)` is a `ColumnVecRef` over the range `bounds[i]..bounds[i+1]` of the nested store, which holds the i-th list of a sound store |
| Stores.IndexPair | src/lib.rs:297-299 | a pair store's `index(i)` pairs the columns' views, which view the i-th pair of a sound store |
| Stores.IndexTriple | src/lib.rs:335-337 | the same for a triple store |
| Stores.IndexResult | src/lib.rs:404-409 | `ColumnResult::index(i)` follows tag i to `Ok(s_store.index(k))` or `Err(t_store.index(k))`, which views the i-th entry of a sound store |
| Stores.IndexOption | src/lib.rs:476-481 | `ColumnOption::index(i)` follows tag i to `Some(t_store.index(k))` or is `None`, which views the i-th entry of a sound store |
| Stores.IndexAgrees | src/lib.rs:35 | every entry of a sound store passes `index`'s range checks, and `index` views it |
| Stores.Last | src/lib.rs:37-40 | `last()` is `None` exactly when the store has no entries; otherwise it views the newest entry |
| Stores.RefLen | src/lib.rs:206-208 | `ColumnVecRef::len` is the length of the viewed list |
| Stores.RefIndex | src/lib.rs:202-205 | `ColumnVecRef::index(j)`, allowed only for `j < upper - lower`, views element j of the viewed list |
| Stores.HeapSize | src/lib.rs:44-46 | `heap_size()`, as each store computes it (src/lib.rs lines 78, 120, 169, 261, 304, 343, 417 and 488): element size times length, and times capacity, summed over every owned vector. Its contract is carried by `Stores.HeapBounded`, `Stores.UncappedKeeps` and `Stores.ClearKeepsCapacity` |
| Stores.HeapBounded | src/lib.rs:78-83 | of the two sums `heap_size` returns (element size times length, and times capacity, over every owned vector), the bytes in use never exceed the bytes allocated on a valid store |
| Stores.UncappedKeeps | src/lib.rs:46 | setting every capacity to zero leaves `heap_size`'s bytes in use and whether the store is primed unchanged |
| Stores.Clear | src/lib.rs:42-43 | `clear()`, as each store does it (src/lib.rs lines 77, 119, 165, 256, 300, 338, 411 and 483): every vector truncated and the counter zeroed, capacities kept. Its contract is carried by `Stores.ClearEmpties`, `Stores.ClearKeepsCapacity` and `Stores.ClearPrimed` |
| Stores.ClearEmpties | src/lib.rs:165-168 | `clear()` leaves a sound store of the same type with no entries, whatever state it starts from |
| Stores.ClearKeepsCapacity | src/lib.rs:41-43 | `clear()` retains every allocation: `heap_size` becomes `(0, cap)` with the same allocated bytes |
| Stores.ClearPrimed | src/lib.rs:256-259 | `clear()` empties the bounds of every `ColumnString` and `ColumnVec`, so the cleared store is primed exactly when its type holds neither |
| Offsets.SegmentsPush | src/lib.rs:140-143 | pushing `values.len()` after appending a payload keeps the bounds ascending and ending at the payload length, and adds the payload as one new entry |
| Offsets.SegmentsPop | src/lib.rs:144-153 | dropping the last bound and splitting the payload at the new last bound removes exactly the newest entry |
| Tags.ResultEntriesPush | src/lib.rs:380-391 | pushing `Ok(s_store.len())` with a payload keeps the Ok tags numbered 0, 1, ... against `s_store` and adds `Ok(x)` as the newest entry |
| Tags.OptionEntriesPush | src/lib.rs:453-463 | `Some(t_store.len())` and `None` tags keep the k-th `Some` tag holding k, and add `Some(x)` or `None` as the newest entry |
| Tags.ErrAsOkBreaksNumbering | src/lib.rs:387 | an `Ok(t_store.len())` tag pushed for an `Err` leaves no numbering of the tags that fits the payload lengths |
| Copying.Copy | src/lib.rs:12 | `push`/`copy` of a value of the store's type yields a store of the same type, or a panic |
| Copying.CopySlice | src/lib.rs:72 | `copy_slice` yields a store of the same type, or a panic |
| Copying.CopyEach | src/lib.rs:19-23 | the trait's default `copy_slice` yields a store of the same type, or a panic |
| Copying.DefaultCopySlice | src/lib.rs:19-23 | the trait's default `copy_slice` loop copies each item in order and stops at the first panic |
| Copying.CopyEachPanicStops | src/lib.rs:20-22 | once one copy in the loop panics, the whole `copy_slice` panics |
| Copying.CopyLen | src/lib.rs:14 | a completed `copy` leaves `len()` defined and one larger |
| Copying.CopyValid | src/lib.rs:140-143 | every completed `copy` keeps capacities above lengths and a `ColumnString`'s bounds ascending and ending at its byte count |
| Copying.CopySliceValid | src/lib.rs:72 | the same for `copy_slice` |
| Copying.CopyEachValid | src/lib.rs:19-23 | the same for the default `copy_slice` |
| Copying.CopyPrimed | src/lib.rs:225-228 | on a primed store `copy` never panics and the store stays primed |
| Copying.CopySlicePrimed | src/lib.rs:72 | on a primed store `copy_slice` never panics and the store stays primed |
| Copying.CopyEachPrimed | src/lib.rs:19-23 | the same for the default `copy_slice` |
| Copying.CopyReadyPrimed | src/lib.rs:140-143 | a top-level `ColumnString`, or a `ColumnVec` over a primed store, takes any `copy` and is primed afterwards |
| Copying.PrimedFor | src/lib.rs:225-228 | every `ColumnString` and `ColumnVec` that copying the value reaches has its bounds, and the whole store nested in each such `ColumnVec` is primed, not only the parts the list's items reach. Then `len()` is defined; a primed store meets this for every value |
| Copying.CopyAppends | src/lib.rs:14 | `copy(x)` of an `Err`-free value into a sound store whose reached parts have their bounds keeps it sound and appends exactly `x` |
| Copying.CopySound | src/lib.rs:14 | `copy(x)` of an `Err`-free value into a sound, ready store keeps it sound and appends exactly `x`. A store with empty bounds instead absorbs `x` as its base offset |
| Copying.CopySoundPrim | src/lib.rs:71 | `Vec::copy` appends exactly `x` |
| Copying.CopySoundUnit | src/lib.rs:111 | the counter's `copy` adds one `()` entry |
| Copying.CopySoundText | src/lib.rs:140-143 | `ColumnString::copy` appends the string. With empty bounds it only sets the base offset |
| Copying.CopySoundList | src/lib.rs:225-228 | `ColumnVec::copy` appends the list: the nested store gains its items and the new bound delimits them |
| Copying.ListBoundPushed | src/lib.rs:225-228 | pushing the nested store's new length onto the bounds keeps a `ColumnVec` sound and adds the list as its newest entry; onto empty bounds it only records the start |
| Copying.CopySoundPair | src/lib.rs:280-283 | when the columns the pair reaches have their bounds, a pair store copies each field into its own column, keeping the columns in lockstep, and appends the pair |
| Copying.CopySoundTriple | src/lib.rs:316-320 | under the same condition, a triple store copies each field in order, keeping lockstep, and appends the triple |
| Copying.CopySoundResult | src/lib.rs:380-386 | when the `Ok` side has its bounds, `copy(Ok(x))` pushes `Ok(s_store.len())`, copies `x` into `s_store`, and appends `Ok(x)` |
| Copying.CopySoundOption | src/lib.rs:453-463 | when a present payload's store has its bounds, `copy(Some(x))` pushes `Some(t_store.len())` and copies `x`, and `copy(None)` pushes `None` alone. Either way the value is appended |
| Copying.CopySliceSound | src/lib.rs:72 | `copy_slice(s)` into a sound, primed store appends `s` in order |
| Copying.CopyEachSound | src/lib.rs:19-23 | the default `copy_slice` appends every item, except a first item absorbed as a base offset |
| Copying.BulkMatchesDefault | src/lib.rs:113 | the bulk `copy_slice` of `Vec` and of the counter holds the same entries as the default loop would |
| Copying.CopyErrUnsound | src/lib.rs:387 | `copy(Err(y))` pushes `Ok(t_store.len())` while `y` goes to `t_store`, so the store is no longer sound |
| Popping.Pop | src/lib.rs:28-29 | `pop()` keeps the store sound and of the same type. It returns `None`, changing nothing, exactly when there are no entries; otherwise it returns the newest entry and keeps the rest |
| Popping.PopPrim | src/lib.rs:73 | `Vec::pop` returns the last element and keeps the others |
| Popping.PopUnit | src/lib.rs:114 | the counter's `pop` returns `None` at 0, otherwise decrements and returns `()` |
| Popping.PopText | src/lib.rs:144-153 | `ColumnString::pop` returns `None` when `bounds.len() <= 1`; otherwise it returns the bytes after the new last bound |
| Popping.PopList | src/lib.rs:229-242 | `ColumnVec::pop` pops `last - bounds.last()` nested entries, reverses them, and returns exactly the newest list |
| Popping.PopMany | src/lib.rs:233-235 | `count` nested pops return the newest `count` entries, newest first |
| Popping.ColumnVecPop | src/lib.rs:229-242 | the `ColumnVec::pop` loop with its final `reverse` computes `PopList` |
| Popping.PopPair | src/lib.rs:284-292 | a pair store pops both columns and needs only the columns sound. It panics with "invariant violated" exactly when one column is empty and the other is not; on a sound pair store it never panics and returns the newest pair |
| Popping.PairPopped | src/lib.rs:284-292 | on a sound pair store, popping both columns and zipping their answers returns the newest pair and keeps the other pairs |
| Popping.PopTriple | src/lib.rs:321-330 | the same for a triple store: the panic happens exactly when the three columns are not all empty or all non-empty |
| Popping.TriplePopped | src/lib.rs:321-330 | on a sound triple store, popping the three columns returns the newest triple and keeps the others |
| Popping.PopResult | src/lib.rs:392-399 | `ColumnResult::pop`, on any tags over sound payload stores, pops the newest tag, then unwraps the newest payload of the side the tag names. It panics exactly when that side is empty; on a sound store it never panics and returns the newest entry |
| Popping.ResultOkPopped | src/lib.rs:392-399 | on a sound store whose newest tag is `Ok`, dropping that tag and popping `s_store` leaves a sound store holding every entry but the newest, which is `Ok` of the payload popped |
| Popping.ResultErrPopped | src/lib.rs:392-399 | the same for a newest `Err` tag and `t_store` |
| Popping.PopOption | src/lib.rs:464-471 | `ColumnOption::pop` returns `None` on no tags, `Some(None)` for a `None` tag, and `Some(Some(x))` popping the payload otherwise |
| Popping.PopUndoesCopy | src/lib.rs:28 | `copy(x)` then `pop()`, for an `Err`-free `x` and a sound store whose parts `x` reaches have their bounds, returns `Some(x)`, restores the entries and primedness, and leaves `heap_size`'s bytes in use as before |
| Popping.PopRestoresStore | src/lib.rs:28 | under the same conditions `copy(x)` then `pop()` restores every bound, byte, element, tag and counter; only capacities may differ |
| Popping.PopIgnoresCap | src/lib.rs:29 | `pop` does not read capacities: two stores that differ only in capacities pop the same value and still differ only in capacities |
| Popping.PopManyUndoesCopySlice | src/lib.rs:233-235 | popping `items.len()` entries after `copy_slice(items)` on a sound, primed store restores it up to capacities |
| Popping.PopManyUndoesCopyEach | src/lib.rs:19-23 | the same for the default `copy_slice` loop |
| Popping.ErrCopyPopsOk | src/lib.rs:387-396 | after `copy(Err(y))`, `pop` panics exactly when `s_store` is empty and otherwise returns `Ok` of `s_store`'s newest payload, never `Err(y)` |
| Popping.PopRestoresVec | src/lib.rs:71-73 | on a `Vec`, `copy(x)` then `pop()` restores the elements |
| Popping.PopRestoresText | src/lib.rs:140-153 | on a `ColumnString` with bounds, `copy(s)` then `pop()` restores `bounds` and `values` exactly |
| Popping.PopRestoresList | src/lib.rs:225-242 | on a sound `ColumnVec` whose bounds are not empty and whose nested store is primed, `copy(v)` of an `Err`-free list then `pop()` restores `bounds` and the nested entries. On cleared bounds, `copy` pushes the only bound and `pop` then returns `None`, so nothing is restored |
| Popping.PopIsLast | src/lib.rs:37-40 | `pop()` returns what `last()`, that is `index(len() - 1)`, views |
| Columnable.NewStore | src/lib.rs:211-218 | `Default::default()` is a sound store of the requested type with no entries. It is primed exactly when the type holds no `String`, since `ColumnString`'s derived default has no bounds |
| Columnable.AsColumns | src/lib.rs:53-59 | `as_columns` pushes each value in order into the default store |
| Columnable.AsColumnsContents | src/lib.rs:53-59 | `as_columns` of `Err`-free values of a type without `String` holds exactly those values. For `String` it holds all but the first |
| Columnable.AsColumnsIndex | src/lib.rs:53-59 | for a type without `String`s or `Err`s, `index(i)` of `as_columns(v)` views `v[i]` |
| Columnable.FirstStringLost | src/lib.rs:129-133 | `as_columns` of two strings has length 1 and holds only the second |
| Columnable.EmptyListOfStringsPanics | src/lib.rs:225-228 | in a fresh `ColumnVec<ColumnString>`, copying an empty vector panics on `len()` |
| Columnable.ListOfStringsLosesFirst | src/lib.rs:225-228 | in a fresh `ColumnVec<ColumnString>`, the first vector of one string reads back empty |
| Columnable.PairWithStringOutOfStep | src/lib.rs:280-283 | in a fresh `(ColumnString, Vec<u64>)`, the first push leaves the columns out of lockstep |
| Columnable.StringPairsCopied | src/lib.rs:280-283 | in a fresh `(ColumnString, Vec<u64>)`, `copy(("a", 1))` then `copy(("b", 2))` leaves the string bounds `[1, 2]` over the bytes `ab`, and `[1, 2]` in the number column |
| Columnable.StringPairsPopOutOfStep | src/lib.rs:284-292 | that store is not sound, though both columns are: the first `pop()` returns `("b", 2)`, and the second panics with "invariant violated", since the string column is empty and the number column is not |
| Columnable.ErrPushedAsOk | src/lib.rs:387 | in a fresh `ColumnResult`, pushing `Err(n)` records `Ok(0)` while `n` lands in `t_store` and `s_store` stays empty |
| Columnable.OkThenErrCopied | src/lib.rs:380-389 | in a fresh `ColumnResult<Vec<u64>, Vec<u64>>`, `copy(Ok(1))` then `copy(Err(5))` leaves the tags `[Ok(0), Ok(0)]` over `s_store = [1]` and `t_store = [5]` |
| Columnable.ErrPopsAsOk | src/lib.rs:392-409 | that store is not sound: `index(1)` is `Ok(&1)`, `pop()` returns `Ok(1)` where `Err(5)` went in, and a second `pop()` panics unwrapping the empty `s_store` |

## Left out

- Update in place: every `&mut self` operation is modelled as a function from the old store
  to the new one. Rust's ownership gives each store, and each store nested in it, a single
  owner, so no two stores share a vector and there is no aliasing for a heap model to
  capture. The order of the updates within one operation is not modelled either.
- Traits and generics: the `Columnar` trait and the generic parameters of the composite
  stores are modelled by one `Store` datatype with a constructor per store, plus a `Shape`
  per Rust type.
- Popping.Pop: modelled only on sound stores, where no `pop` panics. Unsound stores are
  reachable, for example after `copy(Err(_))` or after pushing a tuple that holds a `String`.
  At the top level, `Popping.PopResult`, `Popping.PopPair` and `Popping.PopTriple` need only
  their component stores sound, and model the wrong variant and the panics there
  (`Popping.ErrCopyPopsOk`, `Columnable.ErrPopsAsOk`, `Columnable.StringPairsPopOutOfStep`).
- Popping.PopPair: a pair store nested inside another store is popped through `Popping.Pop`,
  which requires the whole store sound. So a pair that is out of lockstep inside a
  `ColumnVec`, `Result` or `Option` is not covered. The same holds for `Popping.PopTriple`
  and `Popping.PopResult`.
- Copying.CopySound: the append property is proved for `Err`-free values only, and needs a
  ready store (`Copying.CopyReady`): a primed store, a top-level `ColumnString`, or a
  `ColumnVec` over a primed store.
- Copying.CopyAppends: needs the bounds of every `ColumnString` and `ColumnVec` the value
  reaches (`Copying.PrimedFor`). A `String` nested in a tuple, `Result` or `Option` starts
  without bounds, and such a store is covered only by `Copying.CopyValid`,
  `Copying.CopyLen` and the concrete lemmas in `Columnable`.
- Copying.CopySoundList: needs the nested store of a `ColumnVec` primed throughout, not only
  along the items copied.
- Copying.CopySliceSound: needs a primed store.
- Copying.CopyEachSound: needs a ready store, as `Copying.CopySound` does.
- Popping.PopUndoesCopy: inherits the conditions of `Copying.CopyAppends`, and for a
  `ColumnVec` needs its nested store primed throughout. The bytes allocated may grow, since
  `copy` can grow a capacity and `pop` keeps it.
- Panics: a `copy` whose nested `len()` underflows is the `None` result, as in a build with
  overflow checks. A release build wraps `bounds.len() - 1` to `usize::MAX` and pushes that
  as a bound; that behaviour is not modelled. Other panics
  (`Vec` out-of-range indexing, `ColumnVecRef::index`'s assert, `unwrap`) are preconditions.
- Stores.Index: requires `Valid` as well as the range checks `index` performs. Every store
  built from a default by the modelled operations is valid (`Copying.CopyValid`,
  `Stores.ClearEmpties`, `Popping.Pop`). `index` returns a `View`, a plain value standing for the
  reference, the byte slice or the `ColumnVecRef`; lifetimes and generic associated types
  are not modelled.
- Capacities follow a doubling stand-in; the allocator's real growth policy is not modelled.
  The properties rely only on capacity covering length and `clear` and `pop` keeping it.
- `size_of` values are those of a 64-bit target: 8 for `usize` and 16 for
  `Result<usize, usize>`. A primitive's size is carried as the `Vec`'s width.
- Text is kept as bytes. The UTF-8 check in `String::from_utf8(..).expect` is not modelled:
  `pop` returns the bytes that `copy` appended.
- Primitives are integers. Floats, `char`, `bool` and `Duration` are registered by the
  `implement_columnable!` macro, which only maps types to `Vec` stores and is not modelled.
- `usize` arithmetic is unbounded: the counter store's `+= 1` and `+= slice.len()` cannot
  overflow here, and lengths and byte counts are `nat`.
- `Debug` derivations and `PhantomData` are not modelled.
