/** What several modules share. */
module Basics {

  datatype Option<+T> = None | Some(value: T)

  /** A text that names something. */
  datatype Id = Id(text: string)

  lemma MulMonotone(a: nat, b: nat, m: nat)
    requires a <= b
    ensures a * m <= b * m
  {
  }
}
