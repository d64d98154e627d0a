/** The lazily built, cached members of the wrappers (`ElementAttributeBag.Element`,
    `ElementAttributeBag.ElementTyped`, `Form.ElementTags`): a field that is
    `null` until the first read, which builds the value and stores it. */
module Caching {

  /** A cache slot: not built yet, or holding the value built on the first read. */
  datatype Lazy<T> = Unbuilt | Built(value: T)

  /** Reads the slot: builds with `build` only when nothing is stored yet.
      Returns the value read and the slot afterwards. */
  function Force<T>(cell: Lazy<T>, build: T): (r: (T, Lazy<T>))
    ensures r.1 == Built(r.0)
    ensures cell.Built? ==> r.0 == cell.value && r.1 == cell
    ensures cell.Unbuilt? ==> r.0 == build
  {
    match cell
    case Built(v) => (v, cell)
    case Unbuilt => (build, Built(build))
  }

  /** Every later read returns what the first read returned, whatever the
      builder would produce by then. */
  lemma ForceIsStable<T>(cell: Lazy<T>, first: T, later: T)
    ensures Force(Force(cell, first).1, later) == Force(cell, first)
  {
  }

  /** The value of `n` consecutive reads, the builder possibly differing each
      time (`builds[k]` is what the builder would produce at read `k`). */
  function ReadMany<T>(cell: Lazy<T>, builds: seq<T>): (r: (seq<T>, Lazy<T>))
    ensures |r.0| == |builds|
    ensures |builds| > 0 ==> r.1.Built?
    decreases |builds|
  {
    if |builds| == 0 then ([], cell)
    else
      var (v, next) := Force(cell, builds[0]);
      var (vs, last) := ReadMany(next, builds[1..]);
      ([v] + vs, last)
  }

  /** All reads of a slot agree: on an unbuilt slot they all return the first
      build, on a built slot they all return the stored value. */
  lemma {:induction false} ReadManyAgree<T>(cell: Lazy<T>, builds: seq<T>)
    requires |builds| > 0
    ensures forall k :: 0 <= k < |builds| ==>
      ReadMany(cell, builds).0[k] == (if cell.Built? then cell.value else builds[0])
    decreases |builds|
  {
    var (v, next) := Force(cell, builds[0]);
    if |builds| > 1 {
      ReadManyAgree(next, builds[1..]);
    }
  }
}
