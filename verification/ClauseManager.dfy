/** Shared clauses and the counts of references to them. */
module ClauseManagers {

  /** A shared clause: the solver that found it, or -1, and its literals. */
  datatype Exchange = Exchange(from: int, lits: seq<int>)

  /** Each clause counts its holders, and has been freed exactly when there are none left. */
  ghost predicate Counted(clauses: seq<Exchange>, nbRefs: seq<int>, freed: set<nat>, held: multiset<nat>) {
    && |nbRefs| == |clauses|
    && (forall c :: 0 <= c < |clauses| ==> nbRefs[c] == held[c] && (c in freed <==> held[c] == 0))
    && (forall c :: c in held ==> c < |clauses|)
    && (forall c :: c in freed ==> c < |clauses|)
  }

  class ClauseManager {
    /** All clauses that were ever allocated; a clause is named by its place. */
    var clauses: seq<Exchange>
    var nbRefs: seq<int>
    var freed: set<nat>

    /** The references in `held` are all there are. */
    ghost predicate Owns(held: multiset<nat>)
      reads this
    {
      Counted(clauses, nbRefs, freed, held)
    }

    constructor ()
      ensures Owns(multiset{}) && clauses == []
    {
      clauses, nbRefs, freed := [], [], {};
    }

    method AllocClause(from: int, lits: seq<int>, ghost held: multiset<nat>) returns (c: nat)
      requires Owns(held)
      modifies this
      ensures c == |old(clauses)| && clauses == old(clauses) + [Exchange(from, lits)]
      ensures Owns(held + multiset{c}) && freed == old(freed)
    {
      c := |clauses|;
      clauses := clauses + [Exchange(from, lits)];
      nbRefs := nbRefs + [1];
    }

    method IncreaseClause(c: nat, refs: nat, ghost held: multiset<nat>)
      requires Owns(held) && c in held
      modifies this`nbRefs
      ensures Owns(held[c := held[c] + refs])
    {
      nbRefs := nbRefs[c := nbRefs[c] + refs];
    }

    /** Gives up one reference; the last one to do so frees the clause. */
    method ReleaseClause(c: nat, ghost held: multiset<nat>)
      requires Owns(held) && c in held
      modifies this`nbRefs, this`freed
      ensures Owns(held - multiset{c})
      ensures c !in old(freed) && freed == if held[c] == 1 then old(freed) + {c} else old(freed)
    {
      var oldValue := nbRefs[c];
      nbRefs := nbRefs[c := oldValue - 1];
      if oldValue - 1 <= 0 {
        freed := freed + {c};
      }
    }
  }
}
