/**
 * The interpreter's change value (`Int` of the qvnt crate), seen only through the
 * three capabilities the tag tree uses: an identity (`Int::default()`), an
 * order-preserving composition (`prepend_int`) and an explicit release (`DropExt::drop`,
 * modelled in the tree as an entry in a release log).
 */
module Delta {

  /** One parsed interpreter statement; what it means is the interpreter's business. */
  datatype Change = Change(source: string)

  /** A change value: the statements it holds, oldest first. */
  type Delta = seq<Change>

  /** `Int::default()`: the value that holds no statement. */
  const Identity: Delta := []

  /**
   * `acc.prepend_int(curr)`: the statements of `curr` placed before those of `acc`.
   * This is an assumption about the external type, consistent with how the REPL's
   * own test expects a checked-out ancestor to lose its descendants' statements.
   */
  function Prepend(acc: Delta, curr: Delta): Delta
  {
    curr + acc
  }
}
