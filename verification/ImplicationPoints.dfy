/** The first unique implication point, by resolving down the trail. */
module ImplicationPoints {
  import opened Wrappers
  import opened Cnf
  import opened TrailState
  import opened ClauseDb
  import opened Cuts
  import opened Invariants
  import opened Propagation
  import opened Visits
  import opened Analysis
  import opened Redundancy

  /** The variables above level 0 of a stored clause. */
  ghost function UpperIn(t: Trail, f: Problem, cr: nat): set<nat> {
    if cr in f.store then set l | l in f.store[cr].lits && l.v < |t.level| && t.level[l.v] > 0 :: l.v else {}
  }

  /** The variables above level 0 that propagated v. */
  ghost function AntecedentsOf(t: Trail, f: Problem, v: nat): set<nat> {
    if v < |t.reason| && t.reason[v].Some? then UpperIn(t, f, t.reason[v].value) - {v} else {}
  }

  /** The variables of the current level. */
  ghost function OfTopLevel(t: Trail, vs: set<nat>): set<nat> {
    set v | v in vs && v < |t.level| && t.level[v] == |t.lim|
  }

  /** vs, with the variables at the trail positions below k replaced by their antecedents, the last
      position first, until only one variable of the current level is left. */
  ghost function UipVars(t: Trail, f: Problem, vs: set<nat>, k: nat): set<nat>
    requires k <= |t.lits|
    decreases k
  {
    if k == 0 || |OfTopLevel(t, vs)| <= 1 then vs
    else
      var v := t.lits[k - 1].v;
      UipVars(t, f, if v in vs then vs - {v} + AntecedentsOf(t, f, v) else vs, k - 1)
  }

  /** What the next clause adds to the marked variables; p is the literal it propagated. */
  ghost function Adds(t: Trail, f: Problem, p: Option<Lit>, cr: nat): set<nat> {
    UpperIn(t, f, cr) - if p.Some? then {p.value.v} else {}
  }

  lemma StartAdds(t: Trail, f: Problem, cr: nat)
    ensures {} + VarsOf([]) + Adds(t, f, None, cr) == UpperIn(t, f, cr)
  {
    assert VarsOf([]) == {};
  }

  /** Positions whose variables are not in vs are passed over. */
  lemma {:induction false} PassOver(t: Trail, f: Problem, vs: set<nat>, k: nat, m: nat)
    requires m <= k <= |t.lits| && forall j :: m <= j < k ==> t.lits[j].v !in vs
    ensures UipVars(t, f, vs, k) == UipVars(t, f, vs, m)
  {
    if m < k {
      PassOver(t, f, vs, k - 1, m);
    }
  }

  lemma ScannedOver(t: Trail, n: nat, f: Problem, seen: seq<bool>, pending: set<nat>, out: seq<Lit>, start: int, index: int)
    requires Marks(t, n, seen, pending, out, index) && 0 <= index <= start < |t.lits|
    requires forall j :: index < j <= start ==> t.lits[j].v < |seen| && !seen[t.lits[j].v]
    ensures UipVars(t, f, pending + VarsOf(out), start + 1) == UipVars(t, f, pending + VarsOf(out), index + 1)
  {
    PassOver(t, f, pending + VarsOf(out), start + 1, index + 1);
  }

  /** The pending variables are those of the current level. */
  lemma PendingOnTop(t: Trail, n: nat, seen: seq<bool>, pending: set<nat>, out: seq<Lit>, index: int)
    requires Marks(t, n, seen, pending, out, index)
    ensures OfTopLevel(t, pending + VarsOf(out)) == pending && forall v :: v in VarsOf(out) ==> v !in pending
  {
    CollectedBelow(t, out);
  }

  lemma PointReached(t: Trail, n: nat, f: Problem, seen: seq<bool>, pending: set<nat>, out: seq<Lit>, index: int)
    requires Marks(t, n, seen, pending, out, index) && 0 <= index && |pending| == 1
    ensures UipVars(t, f, pending + VarsOf(out), index + 1) == pending + VarsOf(out)
  {
    PendingOnTop(t, n, seen, pending, out, index);
  }

  /** The variable found is replaced by its antecedents. */
  lemma UipStep(t: Trail, n: nat, f: Problem, seen: seq<bool>, pending: set<nat>, out: seq<Lit>, index: int)
    requires Marks(t, n, seen, pending, out, index) && 0 <= index && |pending| > 1
    requires t.lits[index].v in pending && t.lits[index].v < |t.reason| && t.reason[t.lits[index].v].Some?
    ensures var l := t.lits[index];
            UipVars(t, f, pending + VarsOf(out), index + 1) ==
            UipVars(t, f, pending - {l.v} + VarsOf(out) + Adds(t, f, Some(l), t.reason[l.v].value), index)
  {
    hide Marks, VarsOf, OfTopLevel, UipVars, UpperIn;
    MarksSized(t, n, seen, pending, out, index);
    PendingOnTop(t, n, seen, pending, out, index);
    var l := t.lits[index];
    ReplaceOne(t, f, pending + VarsOf(out), index + 1);
    assert pending + VarsOf(out) - {l.v} == pending - {l.v} + VarsOf(out);
  }

  lemma ReplaceOne(t: Trail, f: Problem, vs: set<nat>, k: nat)
    requires 0 < k <= |t.lits| && |OfTopLevel(t, vs)| > 1 && t.lits[k - 1].v in vs
    ensures var v := t.lits[k - 1].v; UipVars(t, f, vs, k) == UipVars(t, f, vs - {v} + AntecedentsOf(t, f, v), k - 1)
  {
  }

  /** A variable that is read stands in the part of the clause that is read. */
  lemma OnlyRead(t: Trail, c: seq<Lit>, from: nat, j: nat)
    requires t.Sized(|t.assigns|) && from <= j < |c| && c[j].v < |t.assigns| && t.level[c[j].v] > 0
    ensures c[j].v in UpperVars(t, c[from..])
  {
    assert c[from..][j - from] == c[j];
  }

  /** The part of the clause that is read holds exactly the variables it adds. */
  lemma ReadAdds(t: Trail, f: Problem, p: Option<Lit>, cr: nat, c: seq<Lit>)
    requires t.Sized(|t.assigns|) && SaysSame(f, cr, c) && DistinctVars(c) && |c| >= 1 && (p.Some? ==> c[0] == p.value)
    requires forall k :: 0 <= k < |c| ==> c[k].v < |t.assigns|
    ensures Adds(t, f, p, cr) == UpperVars(t, c[if p.None? then 0 else 1..])
  {
    var from := if p.None? then 0 else 1;
    var d := c[from..];
    forall v | v in UpperVars(t, d)
      ensures v in Adds(t, f, p, cr)
    {
      var k :| 0 <= k < |d| && d[k].v == v;
      assert d[k] == c[from + k] && c[from + k] in f.store[cr].lits;
    }
    forall v | v in Adds(t, f, p, cr)
      ensures v in UpperVars(t, d)
    {
      var l :| l in f.store[cr].lits && l.v == v;
      var k :| 0 <= k < |c| && c[k] == l;
      OnlyRead(t, c, from, k);
    }
  }

  /** Reading a clause marks exactly the variables it adds. */
  lemma ExactlyAdded(t: Trail, f: Problem, p: Option<Lit>, cr: nat, c: seq<Lit>, vs0: set<nat>, pending: set<nat>, out: seq<Lit>)
    requires t.Sized(|t.assigns|) && SaysSame(f, cr, c) && DistinctVars(c) && |c| >= 1 && (p.Some? ==> c[0] == p.value)
    requires forall k :: 0 <= k < |c| ==> c[k].v < |t.assigns|
    requires Covered(t, c, if p.None? then 0 else 1, |c|, pending, out) && vs0 <= pending + VarsOf(out)
    requires pending + VarsOf(out) <= vs0 + UpperVars(t, c[if p.None? then 0 else 1..])
    ensures pending + VarsOf(out) == vs0 + Adds(t, f, p, cr)
  {
    ReadAdds(t, f, p, cr, c);
    hide VarsOf, Adds, SaysSame;
    var from := if p.None? then 0 else 1;
    var d := c[from..];
    forall v | v in UpperVars(t, d)
      ensures v in pending + VarsOf(out)
    {
      var k :| 0 <= k < |d| && d[k].v == v;
      assert d[k] == c[from + k];
    }
  }
}
