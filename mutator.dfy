/** Feedback mutators (src/logic/mutator.rs). Only the `NoopMutator` is
    modelled; the randomised `StepProbMutator` is not part of this model. */
module Mutator {
  import opened Types

  datatype Mutator = NoopMutator

  /** `Mutator::mutate` for the mutators of the model. */
  function Mutate(m: Mutator, a: CharAlignment): (r: CharAlignment)
    ensures m == NoopMutator ==> r == a
  {
    match m
    case NoopMutator => a
  }

  /** Rebuilds every `CharMatch` with its character kept and its alignment mutated. */
  function MutateMatches(m: Mutator, ms: StringMatch): (r: StringMatch)
    ensures |r| == |ms|
    ensures forall i :: 0 <= i < |ms| ==> r[i] == CharMatch(ms[i].c, Mutate(m, ms[i].align))
  {
    seq(|ms|, i requires 0 <= i < |ms| => CharMatch(ms[i].c, Mutate(m, ms[i].align)))
  }

  /** The no-op mutator hands feedback back unchanged. */
  lemma NoopKeepsMatches(ms: StringMatch)
    ensures MutateMatches(NoopMutator, ms) == ms
  {
  }
}
