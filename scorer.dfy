/**
  Textual similarity. The engine delegates to the ratio of a sequence matcher
  from the host language's library; all the model relies on is that the ratio
  is a deterministic score between 0 and 1.
 */
module Scorer {
  import opened Text

  /** A matcher's ratio: some function of two strings into [0, 1]. */
  type Ratio = f: (string, string) -> real
    | forall a: string, b: string :: 0.0 <= f(a, b) <= 1.0
    witness (a: string, b: string) => 0.0

  /** `similarity(a, b)`: the ratio of the two strings lower-cased. */
  function Similarity(ratio: Ratio, a: string, b: string): (r: real)
    ensures 0.0 <= r <= 1.0
  {
    ratio(Lower(a), Lower(b))
  }
}
