/** The `Diff` record the renderers consume: an operation and the text it applies to.
    The diff algorithm that produces these values (diff.go) is not part of this model. */
module Diffs {

  /** `DiffDelete`, `DiffInsert` and `DiffEqual`. */
  datatype Operation = Delete | Insert | Equal

  datatype Diff = Diff(op: Operation, text: string)
}
