/** Small datatypes shared by every model of the isolation-forest engine. */
module Base {

  /** A child pointer that may be NULL. */
  datatype Option<+T> = None | Some(value: T)

  /** The successive results of the C library's rand(): the call made with
      cursor `pos` returns rand(pos), and the caller continues at pos + 1.
      Every value is non-negative, as rand() guarantees. */
  type Stream = nat -> nat

  /** Where a walk down a tree stops: at a leaf (its depth and recorded
      size) or at a missing child (the depth the walk returns there). */
  datatype Stop = AtLeaf(depth: int, size: int) | NoChild(depth: int)
}
