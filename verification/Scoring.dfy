/** Scored positions, and the order that ranks them. */
module Scoring {
  datatype Candidate = Candidate(index: nat, score: real)

  /** Higher scores first. */
  function Descending(): (Candidate, Candidate) -> bool {
    (a: Candidate, b: Candidate) => a.score >= b.score
  }

  function Position(): Candidate -> int {
    (c: Candidate) => c.index
  }
}
