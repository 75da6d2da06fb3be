/** Merging blocks into their unique predecessors. */
module Automerge {
  import opened Machine
  import opened Blocks
  import opened Store
  import opened Analysis
  import opened Flow
  import opened MergePass
  import opened MergeFlow
  import opened MergeOrder

  /** Instructions and their order of execution are the same, and so is every edge if each given block has instructions. */
  ghost predicate FlowKept(db0: Db, db: Db, fs: set<FcnId>, given: seq<U64>) {
    && SameFlow(db0.blocks, Scope(db0, fs), db.blocks, Scope(db, fs))
    && (Manned(db0, given) ==> SameSteps(db0.blocks, Scope(db0, fs), db.blocks, Scope(db, fs)))
  }

  /** What is known of the outcome beyond `Merged`, as far as the blocks at the start allow. */
  ghost predicate Outcome(db0: Db, db: Db, given: seq<U64>, maxSize: nat) {
    var fs := Holders(db0.blocks, given);
    var s := StartOf(db0, fs, given, maxSize);
    && (Legible(db0, fs, given, maxSize) ==> FlowKept(db0, db, fs, given))
    && (Unlimited(s) ==> Collapsed(s, db.blocks))
    && (Unlimited(s) && Legible(db0, fs, given, maxSize) ==> CollapsedCode(s, db.blocks))
  }

  lemma PassOutcome(states: seq<Db>, given: seq<U64>, rest: seq<U64>, maxSize: nat)
    requires states != [] && Merged(states[0], states[|states| - 1], given, rest, maxSize)
    requires PassRun(states, Holders(states[0].blocks, given), given, maxSize)
    ensures Outcome(states[0], states[|states| - 1], given, maxSize)
  {
    var fs := Holders(states[0].blocks, given);
    if Legible(states[0], fs, given, maxSize) {
      PassFlow(states, fs, given, maxSize);
    }
    if Unlimited(StartOf(states[0], fs, given, maxSize)) {
      PassCollapses(states, fs, given, maxSize);
    }
  }

  /**
   * Merges the given blocks into their predecessors where possible, whatever instructions they have. If no block
   * without instructions could absorb one that has some, the instructions and their order of execution are kept. If every
   * chain whose neighbours fit together fits as a whole, every chain is collapsed, in whatever order the blocks are given.
   * In any case the blocks have their turns one after the other, as they are given.
   */
  method Automerge(an: Analysis, given: seq<U64>) returns (rest: seq<U64>)
    requires Linked(an.State()) && Distinct(given) && forall a :: a in given ==> a in an.blocks
    requires NoSelfMerge(an.State(), Holders(an.blocks, given), given)
    modifies an
    ensures Merged(old(an.State()), an.State(), given, rest, an.bbMaxSize)
    ensures Outcome(old(an.State()), an.State(), given, an.bbMaxSize)
    ensures an.State() == ByOrder(old(an.State()), old(Holders(an.blocks, given)), given, an.bbMaxSize)
  {
    ghost var states;
    rest, states := RunPass(an, given);
    PassOutcome(states, given, rest, an.bbMaxSize);
  }
}
