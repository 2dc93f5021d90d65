/** A way to keep long definitions folded. */
module Folding {
  /** A handle on a definition that is costly to have open everywhere: it holds just when the
      formula behind it does, under a quantifier that the verifier instantiates only where
      `Opened(x, k)` is mentioned of its subject x. A proof opens it by asserting that. */
  ghost predicate Opened<T>(x: T, k: int) { true }
}
