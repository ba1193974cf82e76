/** Python's `collections.deque`, restricted to the operations the health
    tracker calls: `append`, `popleft` and `len`. */
module Collections {

  class Deque<T> {
    /** The entries, front (left end) first. */
    var items: seq<T>

    /** `deque()`: a new, empty deque. */
    constructor ()
      ensures items == []
    {
      items := [];
    }

    /** `append(x)`: add `x` at the right end. */
    method Append(x: T)
      modifies this
      ensures items == old(items) + [x]
    {
      items := items + [x];
    }

    /** `popleft()`: remove and return the leftmost entry. */
    method PopLeft() returns (x: T)
      requires items != []
      modifies this
      ensures x == old(items)[0] && items == old(items)[1..]
    {
      x := items[0];
      items := items[1..];
    }
  }
}
