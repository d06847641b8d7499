/** Literals, clauses and their meaning.

    A model is the set of variables it makes true, so every model is total.
 */
module Cnf {


  /** A literal; the solver packs it into one integer, see ToInt. */
  datatype Lit = Lit(v: nat, neg: bool) {
    function Neg(): Lit { Lit(v, !neg) }
  }

  type Model = iset<nat>

  /** The packed form of a literal: twice the variable plus the sign. */
  function ToInt(l: Lit): nat {
    2 * l.v + if l.neg then 1 else 0
  }

  function ToLit(x: nat): Lit {
    Lit(x / 2, x % 2 == 1)
  }

  lemma PackingRoundTrip(l: Lit, x: nat)
    ensures ToLit(ToInt(l)) == l
    ensures ToInt(ToLit(x)) == x
    ensures ToInt(l.Neg()) == if ToInt(l) % 2 == 0 then ToInt(l) + 1 else ToInt(l) - 1
  {
  }

  ghost predicate Holds(m: Model, l: Lit) {
    (l.v in m) != l.neg
  }

  ghost predicate SatClause(m: Model, c: seq<Lit>) {
    exists i :: 0 <= i < |c| && Holds(m, c[i])
  }

  ghost predicate SatAll(m: Model, f: set<seq<Lit>>) {
    forall c :: c in f ==> SatClause(m, c)
  }

  /** Every model of f satisfies c. */
  ghost predicate Entails(f: set<seq<Lit>>, c: seq<Lit>) {
    forall m: Model :: SatAll(m, f) ==> SatClause(m, c)
  }

  ghost predicate Unsat(f: set<seq<Lit>>) {
    forall m: Model :: !SatAll(m, f)
  }

  /** Every variable of c is below n. */
  ghost predicate InRange(c: seq<Lit>, n: nat) {
    forall i :: 0 <= i < |c| ==> c[i].v < n
  }

  /** No variable occurs twice: no duplicate and no complementary pair. */
  ghost predicate DistinctVars(c: seq<Lit>) {
    forall i, j :: 0 <= i < j < |c| ==> c[i].v != c[j].v
  }

  lemma SatClauseOf(m: Model, c: seq<Lit>, l: Lit)
    requires l in c && Holds(m, l)
    ensures SatClause(m, c)
  {
  }

  lemma SatSubset(m: Model, c: seq<Lit>, d: seq<Lit>)
    requires SatClause(m, c)
    requires forall i :: 0 <= i < |c| ==> c[i] in d
    ensures SatClause(m, d)
  {
    var i :| 0 <= i < |c| && Holds(m, c[i]);
    SatClauseOf(m, d, c[i]);
  }
}
