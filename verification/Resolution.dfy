/** Merging two clauses on a variable, in the two forms the preprocessor uses. */
module Resolution {
  import opened Cnf

  /** The literals of the resolvent of p and q on v. */
  ghost function Resolvent(p: seq<Lit>, q: seq<Lit>, v: nat): set<Lit> {
    set l | l in p + q && l.v != v
  }

  /** p and q clash on a variable other than v, so their resolvent is a tautology. */
  ghost predicate Clash(p: seq<Lit>, q: seq<Lit>, v: nat) {
    exists l :: l in p && l.Neg() in q && l.v != v
  }

  lemma ClashSymmetric(p: seq<Lit>, q: seq<Lit>, v: nat)
    ensures Clash(p, q, v) == Clash(q, p, v)
    ensures Resolvent(p, q, v) == Resolvent(q, p, v)
  {
    if l :| l in p && l.Neg() in q && l.v != v {
      assert l.Neg().Neg() == l;
    }
    if l :| l in q && l.Neg() in p && l.v != v {
      assert l.Neg().Neg() == l;
    }
  }

  /** Position of a literal of variable v, or the length of the clause. */
  method FindVar(c: seq<Lit>, v: nat) returns (j: nat)
    ensures j <= |c| && (j < |c| ==> c[j].v == v)
    ensures j == |c| ==> forall k :: 0 <= k < |c| ==> c[k].v != v
  {
    j := 0;
    while j < |c| && c[j].v != v
      invariant j <= |c| && forall k :: 0 <= k < j ==> c[k].v != v
    {
      j := j + 1;
    }
  }

  ghost predicate NoClashBefore(p: seq<Lit>, q: seq<Lit>, v: nat, i: nat) {
    forall k :: 0 <= k < i && k < |q| && q[k].v != v ==> q[k].Neg() !in p
  }

  /** The literals of q before i that do not occur in p. */
  ghost predicate NewBefore(p: seq<Lit>, q: seq<Lit>, v: nat, i: nat, out: seq<Lit>) {
    && DistinctVars(out)
    && (forall l :: l in out <==> l in q[..if i <= |q| then i else |q|] && l !in p && l.v != v)
    && (forall l, k :: l in out && 0 <= k < |p| ==> p[k].v != l.v)
  }

  lemma NotBothIn(p: seq<Lit>, j: nat, l: Lit)
    requires DistinctVars(p) && j < |p| && p[j].v == l.v
    ensures l in p <==> p[j] == l
    ensures l.Neg() in p <==> p[j] == l.Neg()
  {
    if l in p {
      var k :| 0 <= k < |p| && p[k] == l;
      assert k < j || j < k || k == j;
    }
    if l.Neg() in p {
      var k :| 0 <= k < |p| && p[k] == l.Neg();
      assert k < j || j < k || k == j;
    }
  }

  lemma NewOne(p: seq<Lit>, q: seq<Lit>, v: nat, i: nat, out: seq<Lit>)
    requires DistinctVars(q) && i < |q| && NewBefore(p, q, v, i, out)
    ensures q[i].v == v || q[i] in p ==> NewBefore(p, q, v, i + 1, out)
    ensures q[i].v != v && (forall k :: 0 <= k < |p| ==> p[k].v != q[i].v) ==> NewBefore(p, q, v, i + 1, out + [q[i]])
  {
    assert q[..i + 1] == q[..i] + [q[i]];
    forall k | 0 <= k < |out|
      ensures out[k].v != q[i].v
    {
      assert out[k] in out && out[k] in q[..i];
      var j :| 0 <= j < i && q[j] == out[k];
    }
  }

  /** Builds the resolvent of the clauses on v; false when it is a tautology. */
  method Merge(ps0: seq<Lit>, qs0: seq<Lit>, v: nat) returns (consistent: bool, out: seq<Lit>)
    requires DistinctVars(ps0) && DistinctVars(qs0)
    ensures consistent <==> !Clash(ps0, qs0, v)
    ensures consistent ==> DistinctVars(out) && forall l :: l in out <==> l in Resolvent(ps0, qs0, v)
  {
    hide NewBefore, NoClashBefore, Clash, Resolvent, DistinctVars;
    var psSmallest := |ps0| < |qs0|;
    var ps, qs := if psSmallest then qs0 else ps0, if psSmallest then ps0 else qs0;
    ClashSymmetric(ps0, qs0, v);
    out := [];
    NothingNew(ps, qs, v);
    for i := 0 to |qs|
      invariant NewBefore(ps, qs, v, i, out) && NoClashBefore(ps, qs, v, i)
    {
      NewOne(ps, qs, v, i, out);
      NoClashStep(ps, qs, v, i);
      if qs[i].v != v {
        var j := FindVar(ps, qs[i].v);
        if j < |ps| {
          NotBothIn(ps, j, qs[i]);
          if ps[j] == qs[i].Neg() {
            ClashFound(ps, qs, v, i, j);
            return false, out;
          }
        } else {
          out := out + [qs[i]];
        }
      }
    }
    NoClash(ps, qs, v);
    out := AppendRest(ps, qs, v, out);
    return true, out;
  }

  /** The literals of the longer clause follow. */
  method AppendRest(ps: seq<Lit>, ghost qs: seq<Lit>, v: nat, added: seq<Lit>) returns (out: seq<Lit>)
    requires DistinctVars(ps) && NewBefore(ps, qs, v, |qs|, added)
    ensures DistinctVars(out) && forall l :: l in out <==> l in Resolvent(ps, qs, v)
  {
    out := added;
    assert ps[..0] == [] && added + [] == added;
    for i := 0 to |ps|
      invariant DistinctVars(out) && forall l :: l in out <==> l in added || (l in ps[..i] && l.v != v)
      invariant forall k :: i <= k < |ps| ==> forall l :: l in out ==> l.v != ps[k].v || l.v == v
      invariant forall l :: l in out ==> l.v != v
    {
      assert ps[..i + 1] == ps[..i] + [ps[i]];
      if ps[i].v != v {
        out := out + [ps[i]];
      }
    }
    MergedAll(ps, qs, v, added, out);
  }

  lemma NothingNew(p: seq<Lit>, q: seq<Lit>, v: nat)
    ensures NewBefore(p, q, v, 0, []) && NoClashBefore(p, q, v, 0)
  {
  }

  lemma NoClashStep(p: seq<Lit>, q: seq<Lit>, v: nat, i: nat)
    requires NoClashBefore(p, q, v, i) && i < |q|
    ensures q[i].v == v || q[i].Neg() !in p ==> NoClashBefore(p, q, v, i + 1)
  {
  }

  lemma ClashFound(p: seq<Lit>, q: seq<Lit>, v: nat, i: nat, j: nat)
    requires i < |q| && j < |p| && p[j] == q[i].Neg() && q[i].v != v
    ensures Clash(p, q, v)
  {
    assert p[j] in p && p[j].Neg() == q[i] && q[i] in q;
  }

  lemma MergedAll(p: seq<Lit>, q: seq<Lit>, v: nat, added: seq<Lit>, out: seq<Lit>)
    requires NewBefore(p, q, v, |q|, added)
    requires forall l :: l in out <==> l in added || (l in p[..|p|] && l.v != v)
    ensures forall l :: l in out <==> l in Resolvent(p, q, v)
  {
    assert p[..|p|] == p && q[..|q|] == q;
  }

  lemma NoClash(p: seq<Lit>, q: seq<Lit>, v: nat)
    requires NoClashBefore(p, q, v, |q|)
    ensures !Clash(p, q, v)
  {
    forall k | 0 <= k < |q| && q[k].v != v
      ensures q[k].Neg() !in p
    {
    }
    assert forall l: Lit :: l.Neg().Neg() == l;
  }

  // ---------- the counting form ----------

  ghost function LitSet(c: seq<Lit>): set<Lit> {
    set l | l in c
  }

  lemma {:induction false} DistinctSize(c: seq<Lit>)
    requires DistinctVars(c)
    ensures |LitSet(c)| == |c|
  {
    if c == [] {
      assert LitSet(c) == {};
    } else {
      var last := |c| - 1;
      DistinctSize(c[..last]);
      assert c == c[..last] + [c[last]];
      assert LitSet(c) == LitSet(c[..last]) + {c[last]};
      forall k | 0 <= k < last
        ensures c[k] != c[last]
      {
      }
      assert c[last] !in LitSet(c[..last]);
    }
  }

  /** Counts the literals of the resolvent without building it; v occurs in both clauses. */
  method MergeSize(ps0: seq<Lit>, qs0: seq<Lit>, v: nat) returns (consistent: bool, size: int)
    requires DistinctVars(ps0) && DistinctVars(qs0)
    requires (exists i :: 0 <= i < |ps0| && ps0[i].v == v) && exists i :: 0 <= i < |qs0| && qs0[i].v == v
    ensures consistent <==> !Clash(ps0, qs0, v)
    ensures consistent ==> size == |Resolvent(ps0, qs0, v)|
  {
    hide NewBefore, NoClashBefore, Clash, Resolvent, DistinctVars;
    var psSmallest := |ps0| < |qs0|;
    var ps, qs := if psSmallest then qs0 else ps0, if psSmallest then ps0 else qs0;
    ClashSymmetric(ps0, qs0, v);
    size := |ps| - 1;
    ghost var out := [];
    NothingNew(ps, qs, v);
    for i := 0 to |qs|
      invariant NewBefore(ps, qs, v, i, out) && NoClashBefore(ps, qs, v, i) && size == |ps| - 1 + |out|
    {
      NewOne(ps, qs, v, i, out);
      NoClashStep(ps, qs, v, i);
      if qs[i].v != v {
        var j := FindVar(ps, qs[i].v);
        if j < |ps| {
          NotBothIn(ps, j, qs[i]);
          if ps[j] == qs[i].Neg() {
            ClashFound(ps, qs, v, i, j);
            return false, size;
          }
        } else {
          out := out + [qs[i]];
          size := size + 1;
        }
      }
    }
    NoClash(ps, qs, v);
    Counted(ps, qs, v, out);
    return true, size;
  }

  lemma Counted(p: seq<Lit>, q: seq<Lit>, v: nat, added: seq<Lit>)
    requires DistinctVars(p) && NewBefore(p, q, v, |q|, added) && exists i :: 0 <= i < |p| && p[i].v == v
    ensures |Resolvent(p, q, v)| == |p| - 1 + |added|
  {
    var i :| 0 <= i < |p| && p[i].v == v;
    DistinctSize(p);
    DistinctSize(added);
    assert q[..|q|] == q;
    var rest := LitSet(p) - {p[i]};
    ResolventParts(p, q, v, added, i);
    hide Resolvent, NewBefore, DistinctVars, LitSet;
    assert p[i] in LitSet(p);
    assert |rest| == |LitSet(p)| - 1;
  }

  /** The resolvent consists of the literals of p but that of v, and of the added ones. */
  lemma ResolventParts(p: seq<Lit>, q: seq<Lit>, v: nat, added: seq<Lit>, i: nat)
    requires DistinctVars(p) && NewBefore(p, q, v, |q|, added) && i < |p| && p[i].v == v
    ensures p[i] in LitSet(p)
    ensures var rest := LitSet(p) - {p[i]};
            Resolvent(p, q, v) == rest + LitSet(added) && rest !! LitSet(added)
  {
    assert q[..|q|] == q;
    var rest := LitSet(p) - {p[i]};
    forall l
      ensures l in Resolvent(p, q, v) <==> l in rest + LitSet(added)
    {
      if l in p && l.v == v {
        NotBothIn(p, i, l);
      }
    }
    assert Resolvent(p, q, v) == rest + LitSet(added);
    assert rest !! LitSet(added);
  }

  // ---------- what resolution means ----------

  /** The resolvent follows; when the clauses clash it is a tautology. */
  lemma ResolventFollows(m: Model, p: seq<Lit>, q: seq<Lit>, v: nat)
    requires SatClause(m, p) && SatClause(m, q)
    requires forall l :: l in p && l.v == v ==> !l.neg
    requires forall l :: l in q && l.v == v ==> l.neg
    ensures exists l :: l in Resolvent(p, q, v) && Holds(m, l)
  {
    var i :| 0 <= i < |p| && Holds(m, p[i]);
    var j :| 0 <= j < |q| && Holds(m, q[j]);
    assert p[i] in p + q && q[j] in p + q;
    assert p[i] in p && q[j] in q;
    if p[i].v == v {
      assert q[j].v != v;
      assert q[j] in Resolvent(p, q, v);
    } else {
      assert p[i] in Resolvent(p, q, v);
    }
  }

  /** If the resolvent holds, or the clauses clash, then one of the clauses holds without v. */
  lemma OneHoldsWithout(m: Model, p: seq<Lit>, q: seq<Lit>, v: nat)
    requires Clash(p, q, v) || exists l :: l in Resolvent(p, q, v) && Holds(m, l)
    ensures (exists l :: l in p && l.v != v && Holds(m, l)) || (exists l :: l in q && l.v != v && Holds(m, l))
  {
    if Clash(p, q, v) {
      var l :| l in p && l.Neg() in q && l.v != v;
      assert Holds(m, l) || Holds(m, l.Neg());
    } else {
      var l :| l in Resolvent(p, q, v) && Holds(m, l);
      assert l in p || l in q;
    }
  }
}
