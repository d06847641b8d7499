/** The units that the workers of Plingeling have derived. */
module UnitPool {
  import opened Cnf

  /** A variable's value: not yet fixed, true or false. */
  datatype Value = Unknown | True | False

  function ValueOf(l: Lit): Value {
    if l.neg then False else True
  }

  /** Every model makes l true. */
  ghost predicate Forced(f: set<seq<Lit>>, l: Lit) {
    forall m: Model :: SatAll(m, f) ==> Holds(m, l)
  }

  /** How many units a worker keeps back at most. */
  const NUNITS: nat := 512

  /** The units that a worker has not handed in yet, and the place from which it is given units. */
  datatype Worker = Worker(units: seq<Lit>, fixed: nat)

  class Units {
    const formula: set<seq<Lit>>
    /** The units in the order in which they arrived. */
    var fixed: seq<Lit>
    var vals: seq<Value>
    var globalres: int
    var done: bool
    var workers: seq<Worker>

    /** Each variable is fixed at most once, as its value says, and rightly; and the formula is
        reported unsatisfiable only if it is. */
    ghost predicate Valid()
      reads this
    {
      && (forall k :: 0 <= k < |fixed| ==> fixed[k].v < |vals| && vals[fixed[k].v] == ValueOf(fixed[k]) && Forced(formula, fixed[k]))
      && (forall v :: 0 <= v < |vals| && vals[v] != Unknown ==> Lit(v, vals[v] == False) in fixed)
      && DistinctVars(fixed)
      && (globalres == 20 ==> Unsat(formula) && done)
      && forall w :: 0 <= w < |workers| ==> WorkerOk(workers[w])
    }

    ghost predicate WorkerOk(w: Worker)
      reads this`vals
    {
      && |w.units| < NUNITS && w.fixed == 0
      && forall k :: 0 <= k < |w.units| ==> w.units[k].v < |vals| && Forced(formula, w.units[k])
    }

    constructor (f: set<seq<Lit>>, nvars: nat, nworkers: nat)
      ensures Valid() && formula == f && |vals| == nvars && |workers| == nworkers && fixed == [] && globalres == 0
    {
      formula, fixed, vals, globalres, done := f, [], seq(nvars, _ => Unknown), 0, false;
      workers := seq(nworkers, _ => Worker([], 0));
    }

    /** A worker derives a unit; when it has NUNITS of them it hands them in. */
    method ProduceUnit(wid: nat, l: Lit)
      requires Valid() && wid < |workers| && l.v < |vals| && Forced(formula, l)
      modifies this
      ensures Valid() && |vals| == |old(vals)| && old(fixed) <= fixed && |workers| == |old(workers)|
      ensures var units := old(workers)[wid].units + [l];
              if |units| < NUNITS
              then fixed == old(fixed) && workers == old(workers)[wid := old(workers)[wid].(units := units)]
              else workers == old(workers)[wid := old(workers)[wid].(units := [])] && HandedIn(units, old(fixed), old(globalres))
    {
      hide Forced;
      var units := workers[wid].units + [l];
      if |units| == NUNITS {
        AddUnits(units);
        workers := workers[wid := workers[wid].(units := [])];
      } else {
        workers := workers[wid := workers[wid].(units := units)];
      }
    }

    /** All the units are fixed now, or the formula is refuted; units that contradict earlier ones
        refute it. */
    ghost predicate HandedIn(units: seq<Lit>, fixed0: seq<Lit>, globalres0: int)
      reads this`fixed, this`globalres
    {
      && ((globalres == globalres0 && forall k :: 0 <= k < |units| ==> units[k] in fixed) || globalres == 20)
      && ((exists k :: 0 <= k < |units| && units[k].Neg() in fixed0) ==> globalres == 20)
    }

    /** Hands in the units of a worker. */
    method Flush(wid: nat)
      requires Valid() && wid < |workers|
      modifies this
      ensures Valid() && |vals| == |old(vals)| && old(fixed) <= fixed
      ensures workers == old(workers)[wid := old(workers)[wid].(units := [])]
      ensures HandedIn(old(workers)[wid].units, old(fixed), old(globalres))
    {
      hide Forced;
      AddUnits(workers[wid].units);
      workers := workers[wid := workers[wid].(units := [])];
    }

    /** Fixes the given units. Two workers that contradict each other have refuted the formula, and
        the rest of the units is dropped. */
    method AddUnits(units: seq<Lit>)
      requires Valid() && forall k :: 0 <= k < |units| ==> units[k].v < |vals| && Forced(formula, units[k])
      modifies this`fixed, this`vals, this`globalres, this`done
      ensures Valid() && |vals| == |old(vals)| && old(fixed) <= fixed && HandedIn(units, old(fixed), old(globalres))
    {
      var i := 0;
      while i < |units|
        invariant i <= |units| && Valid() && |vals| == |old(vals)| && globalres == old(globalres)
        invariant old(fixed) <= fixed && forall k :: 0 <= k < i ==> units[k] in fixed
      {
        var known := vals[units[i].v];
        if known == Unknown {
          AddUnit(units[i]);
        } else if known == ValueOf(units[i].Neg()) {
          Contradiction(units[i]);
          globalres, done := 20, true;
          break;
        } else {
          AlreadyThere(units[i]);
        }
        i := i + 1;
      }
      NeverBoth();
    }

    method AddUnit(l: Lit)
      requires Valid() && l.v < |vals| && vals[l.v] == Unknown && Forced(formula, l)
      modifies this`fixed, this`vals
      ensures Valid() && fixed == old(fixed) + [l] && |vals| == |old(vals)|
    {
      hide Forced;
      fixed := fixed + [l];
      vals := vals[l.v := ValueOf(l)];
      assert fixed[|fixed| - 1] == l;
      forall v | 0 <= v < |vals| && vals[v] != Unknown
        ensures Lit(v, vals[v] == False) in fixed
      {
        if v == l.v {
          assert Lit(v, vals[v] == False) == l;
        } else {
          assert Lit(v, old(vals)[v] == False) in old(fixed);
        }
      }
    }

    lemma Contradiction(l: Lit)
      requires Valid() && l.v < |vals| && vals[l.v] == ValueOf(l.Neg()) && Forced(formula, l)
      ensures Unsat(formula)
    {
      assert Lit(l.v, vals[l.v] == False) == l.Neg();
      var k :| 0 <= k < |fixed| && fixed[k] == l.Neg();
      forall m: Model
        ensures !SatAll(m, formula)
      {
        assert Forced(formula, fixed[k]);
      }
    }

    lemma AlreadyThere(l: Lit)
      requires Valid() && l.v < |vals| && vals[l.v] == ValueOf(l)
      ensures l in fixed
    {
      assert Lit(l.v, vals[l.v] == False) == l;
    }

    lemma NeverBoth()
      requires Valid()
      ensures forall l :: l in fixed ==> l.Neg() !in fixed
    {
    }

    /** What a worker is given, once its own units are handed in: all units from its place on. The
        place is not moved, so whatever it was given before it is given again. */
    method ConsumeUnits(wid: nat) returns (units: seq<Lit>)
      requires Valid() && wid < |workers|
      modifies this
      ensures Valid() && workers == old(workers)[wid := old(workers)[wid].(units := [])]
      ensures units == fixed == fixed[workers[wid].fixed..] && old(fixed) <= units
      ensures HandedIn(old(workers)[wid].units, old(fixed), old(globalres))
      ensures forall k :: 0 <= k < |units| ==> Forced(formula, units[k])
    {
      hide Forced;
      if |workers[wid].units| > 0 {
        Flush(wid);
      }
      units := fixed[workers[wid].fixed..];
    }
  }
}
