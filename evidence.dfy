/** One trial record of an experiment, seen only through the three queries
    the experiment code asks of it: is trait j true, is it false, is the
    trial conflicting at index j. The record's internals live outside the
    experiment code; here a trial is its per-trait verdicts plus the set of
    indices at which it reports a conflict. */
module Trials {

  /** The verdict a trial gives on one trait. */
  datatype Verdict = True | False | Indeterminate

  /** A trial: verdicts[j] is its verdict on trait j (a trait beyond the end
      of the sequence is Indeterminate), and conflicts holds the indices at
      which the trial reports an internal contradiction. */
  datatype Evidence = Evidence(verdicts: seq<Verdict>, conflicts: set<nat>) {

    function VerdictAt(j: nat): Verdict {
      if j < |verdicts| then verdicts[j] else Indeterminate
    }

    predicate IsTrue(j: nat) {
      VerdictAt(j) == True
    }

    /** Never true together with IsTrue(j) on the same trait. */
    predicate IsFalse(j: nat)
      ensures IsFalse(j) ==> !IsTrue(j)
    {
      VerdictAt(j) == False
    }

    predicate IsConflicting(j: nat) {
      j in conflicts
    }
  }

  /** A trial counts as conflicting when it reports a conflict at some index
      below the trait count. */
  predicate Conflicting(e: Evidence, traits: nat) {
    exists j: nat :: j < traits && e.IsConflicting(j)
  }
}
