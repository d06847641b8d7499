/** Variable elimination and asymmetric branching on the value level, and what holds over
    whole runs of the preprocessor. */
module SimpRuns {
  import opened Wrappers
  import opened Cnf
  import opened TrailState
  import opened Cuts
  import Propagation
  import opened SearchSteps
  import opened Growth
  import opened PropagationQueue
  import opened ProblemClauses
  import opened Subsumption
  import opened Resolution
  import opened Lifting
  import opened Occurrences
  import opened Elimination
  import opened UnitClosure
  import opened SimpSteps

  // ---------- variable elimination ----------

  lemma LookupExact(p: Pre, v: nat)
    requires PreOk(p) && v < |p.occurs|
    ensures |p.dirty| == |p.occurs| && Distinct(p.occurs[v])
    ensures forall i :: 0 <= i < |p.occurs[v]| && Alive(p.ca, p.occurs[v][i]) ==> HasVar(p.ca[p.occurs[v][i]].lits, v)
    ensures forall cr :: Alive(p.ca, cr) && HasVar(p.ca[cr].lits, v) ==> cr in p.occurs[v]
  {
    PreList(p, v);
    forall i | 0 <= i < |p.occurs[v]| && Alive(p.ca, p.occurs[v][i])
      ensures HasVar(p.ca[p.occurs[v][i]].lits, v)
    {
      assert OccEntry(p.ca, p.occurs[v][i], v, p.dirty[v]);
    }
    forall cr | Alive(p.ca, cr) && HasVar(p.ca[cr].lits, v)
      ensures cr in p.occurs[v]
    {
      assert Indexed(p, cr);
    }
  }

  /** pos and neg together list the references of cls. */
  ghost predicate Covers(pos: seq<nat>, neg: seq<nat>, cls: seq<nat>) {
    forall cr :: cr in pos + neg <==> cr in cls
  }

  method SplitBySign(ca: Store, cls: seq<nat>, v: nat) returns (pos: seq<nat>, neg: seq<nat>)
    requires Distinct(cls) && forall i :: 0 <= i < |cls| ==> Alive(ca, cls[i]) && HasVar(ca[cls[i]].lits, v)
    ensures Covers(pos, neg, cls) && |pos| + |neg| == |cls| && Distinct(pos) && Distinct(neg)
    ensures forall k :: 0 <= k < |pos| ==> Alive(ca, pos[k]) && Lit(v, false) in ca[pos[k]].lits
    ensures forall k :: 0 <= k < |neg| ==> Alive(ca, neg[k]) && Lit(v, true) in ca[neg[k]].lits
  {
    pos, neg := [], [];
    for i := 0 to |cls|
      invariant |pos| + |neg| == i && Distinct(pos) && Distinct(neg)
      invariant forall cr :: cr in pos + neg <==> cr in cls[..i]
      invariant forall k :: 0 <= k < |pos| ==> Alive(ca, pos[k]) && Lit(v, false) in ca[pos[k]].lits
      invariant forall k :: 0 <= k < |neg| ==> Alive(ca, neg[k]) && Lit(v, true) in ca[neg[k]].lits
    {
      assert cls[..i + 1] == cls[..i] + [cls[i]];
      assert cls[i] !in pos + neg;
      SomeSign(ca[cls[i]].lits, v);
      if Lit(v, false) in ca[cls[i]].lits {
        pos := pos + [cls[i]];
      } else {
        neg := neg + [cls[i]];
      }
    }
    assert cls[..|cls|] == cls;
  }

  /** The number of clauses of ds that have a consistent resolvent with c. */
  ghost function RowCount(c: seq<Lit>, ds: seq<seq<Lit>>, v: nat): nat {
    if ds == [] then 0 else RowCount(c, ds[..|ds| - 1], v) + if Clash(c, ds[|ds| - 1], v) then 0 else 1
  }

  ghost function PairCount(cs: seq<seq<Lit>>, ds: seq<seq<Lit>>, v: nat): nat {
    if cs == [] then 0 else PairCount(cs[..|cs| - 1], ds, v) + RowCount(cs[|cs| - 1], ds, v)
  }

  lemma RowCountNext(c: seq<Lit>, ds: seq<seq<Lit>>, v: nat, j: nat)
    requires j < |ds|
    ensures RowCount(c, ds[..j + 1], v) == RowCount(c, ds[..j], v) + if Clash(c, ds[j], v) then 0 else 1
  {
    assert ds[..j + 1][..j] == ds[..j];
  }

  lemma PairCountNext(cs: seq<seq<Lit>>, ds: seq<seq<Lit>>, v: nat, i: nat)
    requires i < |cs|
    ensures PairCount(cs[..i + 1], ds, v) == PairCount(cs[..i], ds, v) + RowCount(cs[i], ds, v)
  {
    assert cs[..i + 1][..i] == cs[..i];
  }

  lemma {:induction false} RowCountGrows(c: seq<Lit>, ds: seq<seq<Lit>>, v: nat, j: nat)
    requires j <= |ds|
    ensures RowCount(c, ds[..j], v) <= RowCount(c, ds, v)
    decreases |ds| - j
  {
    if j < |ds| {
      RowCountNext(c, ds, v, j);
      RowCountGrows(c, ds, v, j + 1);
    } else {
      assert ds[..j] == ds;
    }
  }

  lemma {:induction false} PairCountGrows(cs: seq<seq<Lit>>, ds: seq<seq<Lit>>, v: nat, i: nat, j: nat)
    requires i < |cs| && j <= |ds|
    ensures PairCount(cs[..i], ds, v) + RowCount(cs[i], ds[..j], v) <= PairCount(cs, ds, v)
    decreases |cs| - i
  {
    RowCountGrows(cs[i], ds, v, j);
    PairCountNext(cs, ds, v, i);
    if i + 1 < |cs| {
      PairCountGrows(cs, ds, v, i + 1, 0);
      assert RowCount(cs[i + 1], ds[..0], v) == 0;
    } else {
      assert cs[..i + 1] == cs;
    }
  }

  /** The resolvent of the pair is a tautology or within the limit. */
  ghost predicate Short(c: seq<Lit>, d: seq<Lit>, v: nat, lim: int) {
    Clash(c, d, v) || lim == -1 || |Resolvent(c, d, v)| <= lim
  }

  ghost predicate AllShort(cs: seq<seq<Lit>>, ds: seq<seq<Lit>>, v: nat, lim: int) {
    forall i, j :: 0 <= i < |cs| && 0 <= j < |ds| ==> Short(cs[i], ds[j], v, lim)
  }

  ghost predicate ShortBefore(cs: seq<seq<Lit>>, ds: seq<seq<Lit>>, v: nat, lim: int, i: nat, j: nat) {
    forall k, l :: 0 <= k < |cs| && 0 <= l < |ds| && (k < i || (k == i && l < j)) ==> Short(cs[k], ds[l], v, lim)
  }

  lemma NothingShort(cs: seq<seq<Lit>>, ds: seq<seq<Lit>>, v: nat, lim: int)
    ensures ShortBefore(cs, ds, v, lim, 0, 0)
  {
  }

  lemma TooLong(cs: seq<seq<Lit>>, ds: seq<seq<Lit>>, v: nat, lim: int, i: nat, j: nat)
    requires i < |cs| && j < |ds|
    ensures !Short(cs[i], ds[j], v, lim) ==> !AllShort(cs, ds, v, lim)
  {
  }

  lemma AllAreShort(cs: seq<seq<Lit>>, ds: seq<seq<Lit>>, v: nat, lim: int)
    requires ShortBefore(cs, ds, v, lim, |cs|, 0)
    ensures AllShort(cs, ds, v, lim)
  {
  }

  ghost predicate OneSide(cs: seq<seq<Lit>>, v: nat) {
    forall i :: 0 <= i < |cs| ==> DistinctVars(cs[i]) && HasVar(cs[i], v)
  }

  /** There are no more consistent resolvents than `bound`, if any, and none is longer than the limit. */
  ghost predicate Bounded(cs: seq<seq<Lit>>, ds: seq<seq<Lit>>, v: nat, bound: int, lim: int) {
    (PairCount(cs, ds, v) > 0 ==> PairCount(cs, ds, v) <= bound) && AllShort(cs, ds, v, lim)
  }

  lemma SplitSame(p: Pre, q: Pre, v: nat, pos: seq<nat>, neg: seq<nat>)
    requires SplitOn(p, v, pos, neg) && q.ca == p.ca
    ensures SplitOn(q, v, pos, neg)
  {
  }

  /** Whether the resolvents stay within the limits on their number and size. */
  method WithinLimits(cs: seq<seq<Lit>>, ds: seq<seq<Lit>>, v: nat, bound: int, lim: int) returns (r: bool)
    requires OneSide(cs, v) && OneSide(ds, v)
    ensures r <==> Bounded(cs, ds, v, bound, lim)
  {
    hide AllShort, ShortBefore, OneSide;
    var cnt: nat := 0;
    NothingShort(cs, ds, v, lim);
    for i := 0 to |cs|
      invariant cnt == PairCount(cs[..i], ds, v) && (cnt > 0 ==> cnt <= bound) && ShortBefore(cs, ds, v, lim, i, 0)
    {
      PairCountNext(cs, ds, v, i);
      var within;
      cnt, within := RowWithin(cs, ds, v, bound, lim, i, cnt);
      if !within {
        return false;
      }
    }
    assert cs[..|cs|] == cs;
    AllAreShort(cs, ds, v, lim);
    return true;
  }

  /** The resolvents of the i-th clause with all clauses of the other side. */
  method RowWithin(cs: seq<seq<Lit>>, ds: seq<seq<Lit>>, v: nat, bound: int, lim: int, i: nat, cnt0: nat)
    returns (cnt: nat, within: bool)
    requires OneSide(cs, v) && OneSide(ds, v) && i < |cs|
    requires cnt0 == PairCount(cs[..i], ds, v) && (cnt0 > 0 ==> cnt0 <= bound) && ShortBefore(cs, ds, v, lim, i, 0)
    ensures within ==> cnt == cnt0 + RowCount(cs[i], ds, v) && (cnt > 0 ==> cnt <= bound) && ShortBefore(cs, ds, v, lim, i + 1, 0)
    ensures !within ==> PairCount(cs, ds, v) > bound || !AllShort(cs, ds, v, lim)
    ensures !within ==> PairCount(cs, ds, v) > 0
  {
    hide AllShort, ShortBefore, PairCount, Clash, Resolvent, HasVar;
    cnt := cnt0;
    for j := 0 to |ds|
      invariant cnt == cnt0 + RowCount(cs[i], ds[..j], v) && (cnt > 0 ==> cnt <= bound)
      invariant ShortBefore(cs, ds, v, lim, i, j)
    {
      SideAt(cs, v, i);
      SideAt(ds, v, j);
      var consistent, size := MergeSize(cs[i], ds[j], v);
      RowCountNext(cs[i], ds, v, j);
      if consistent {
        cnt := cnt + 1;
        if cnt > bound || (lim != -1 && size > lim) {
          PairCountGrows(cs, ds, v, i, j + 1);
          TooLong(cs, ds, v, lim, i, j);
          return cnt, false;
        }
      }
      ShortNext(cs, ds, v, lim, i, j);
    }
    assert ds[..|ds|] == ds;
    ShortRow(cs, ds, v, lim, i);
    return cnt, true;
  }

  lemma SideAt(cs: seq<seq<Lit>>, v: nat, i: nat)
    requires OneSide(cs, v) && i < |cs|
    ensures DistinctVars(cs[i]) && exists k :: 0 <= k < |cs[i]| && cs[i][k].v == v
  {
  }

  lemma ShortNext(cs: seq<seq<Lit>>, ds: seq<seq<Lit>>, v: nat, lim: int, i: nat, j: nat)
    requires i < |cs| && j < |ds| && ShortBefore(cs, ds, v, lim, i, j) && Short(cs[i], ds[j], v, lim)
    ensures ShortBefore(cs, ds, v, lim, i, j + 1)
  {
  }

  lemma ShortRow(cs: seq<seq<Lit>>, ds: seq<seq<Lit>>, v: nat, lim: int, i: nat)
    requires ShortBefore(cs, ds, v, lim, i, |ds|)
    ensures ShortBefore(cs, ds, v, lim, i + 1, 0)
  {
  }

  lemma SomeSign(c: seq<Lit>, v: nat)
    requires HasVar(c, v)
    ensures Lit(v, false) in c || Lit(v, true) in c
  {
    var j :| 0 <= j < |c| && c[j].v == v;
    assert c[j] in c && c[j] == Lit(v, c[j].neg);
  }

  lemma SplitDone(p: Pre, v: nat, pos: seq<nat>, neg: seq<nat>)
    requires forall i :: 0 <= i < |pos| ==> Alive(p.ca, pos[i]) && Lit(v, false) in p.ca[pos[i]].lits
    requires forall i :: 0 <= i < |neg| ==> Alive(p.ca, neg[i]) && Lit(v, true) in p.ca[neg[i]].lits
    requires v < |p.occurs| && Covers(pos, neg, p.occurs[v])
    requires forall cr :: Alive(p.ca, cr) && HasVar(p.ca[cr].lits, v) ==> cr in p.occurs[v]
    ensures SplitOn(p, v, pos, neg)
  {
    forall cr | Alive(p.ca, cr) && HasVar(p.ca[cr].lits, v)
      ensures cr in pos || cr in neg
    {
      assert cr in pos + neg;
    }
  }

  lemma SignPosition(c: seq<Lit>, s: Lit)
    requires s in c
    ensures exists i :: 0 <= i < |c| && c[i].v == s.v
  {
    var i :| 0 <= i < |c| && c[i] == s;
  }

  lemma PairShape(p: Pre, v: nat, pos: seq<nat>, neg: seq<nat>, i: nat, j: nat)
    requires PreOk(p) && SplitOn(p, v, pos, neg) && i < |pos| && j < |neg|
    ensures Alive(p.ca, pos[i]) && Alive(p.ca, neg[j])
    ensures DistinctVars(p.ca[pos[i]].lits) && DistinctVars(p.ca[neg[j]].lits)
    ensures exists k :: 0 <= k < |p.ca[pos[i]].lits| && p.ca[pos[i]].lits[k].v == v
    ensures exists k :: 0 <= k < |p.ca[neg[j]].lits| && p.ca[neg[j]].lits[k].v == v
    ensures InRange(p.ca[pos[i]].lits, |p.t.assigns|) && InRange(p.ca[neg[j]].lits, |p.t.assigns|)
  {
    PreClause(p, pos[i]);
    PreClause(p, neg[j]);
    SignPosition(p.ca[pos[i]].lits, Lit(v, false));
    SignPosition(p.ca[neg[j]].lits, Lit(v, true));
  }

  lemma RecordedOne(c: seq<Lit>, r: Record, s: Lit)
    requires DistinctVars(c) && s in c && Propagation.Reordered(c, r) && r != [] && r[0].v == s.v
    ensures Records(r, c, s)
  {
    assert r[0] in r && r[0] in c;
    OneSign(c, s);
  }

  // ---------- adding the resolvents ----------

  /** p is p0 with more clauses, none of them with v, and a longer trail. */
  ghost predicate Joins(p0: Pre, p: Pre, v: nat) {
    && p0.next <= p.next && |p.t.assigns| == |p0.t.assigns| && |p.occurs| == |p0.occurs| && Continues(p0.t, p.t)
    && (forall x :: x in p0.ca ==> x in p.ca && p.ca[x] == p0.ca[x])
    && (forall x :: x in p.ca && x !in p0.ca ==> FromParents(p0, p.ca[x].lits, v))
    && (v < |p0.occurs| ==> p.occurs[v] == p0.occurs[v]) && p.dirty == p0.dirty
  }

  /** Every literal comes from a live clause of p0, and is not one of v. */
  ghost predicate FromParents(p0: Pre, c: seq<Lit>, v: nat) {
    forall l :: l in c ==> l.v != v && exists x :: Alive(p0.ca, x) && l in p0.ca[x].lits
  }

  lemma JoinsReflexive(p: Pre, v: nat)
    ensures Joins(p, p, v)
  {
  }

  lemma JoinedClause(p0: Pre, p: Pre, v: nat, x: nat)
    requires Joins(p0, p, v) && x in p0.ca
    ensures x in p.ca && p.ca[x] == p0.ca[x]
  {
  }

  lemma JoinsSize(p0: Pre, p: Pre, v: nat)
    requires Joins(p0, p, v)
    ensures |p.t.assigns| == |p0.t.assigns| && p0.next <= p.next
  {
  }

  lemma ResolventRange(c: seq<Lit>, d: seq<Lit>, v: nat, out: seq<Lit>, n: nat)
    requires InRange(c, n) && InRange(d, n) && forall l :: l in out <==> l in Resolvent(c, d, v)
    ensures InRange(out, n)
  {
    forall i | 0 <= i < |out|
      ensures out[i].v < n
    {
      assert out[i] in out && out[i] in c + d;
    }
  }

  /** The pairs before (i, j) are settled, whichever clauses of p0 are dropped later. */
  ghost predicate Resolved(p0: Pre, p: Pre, pos: seq<nat>, neg: seq<nat>, v: nat, i: nat, j: nat) {
    forall m: Model, ex: set<nat> :: ex <= p0.ca.Keys && ModelsExcept(m, p, ex) ==>
      ModelsExcept(m, p0, ex) && PairsBefore(m, p0, pos, neg, v, i, j)
  }

  ghost predicate PairsBefore(m: Model, p0: Pre, pos: seq<nat>, neg: seq<nat>, v: nat, i: nat, j: nat) {
    forall k, l :: 0 <= k < |pos| && 0 <= l < |neg| && (k < i || (k == i && l < j)) ==> PairAt(m, p0, pos[k], neg[l], v)
  }

  ghost predicate PairAt(m: Model, p0: Pre, x: nat, y: nat, v: nat) {
    x in p0.ca && y in p0.ca && PairHolds(m, p0.ca[x].lits, p0.ca[y].lits, v)
  }

  lemma NoPairs(p: Pre, pos: seq<nat>, neg: seq<nat>, v: nat)
    ensures Resolved(p, p, pos, neg, v, 0, 0)
  {
  }

  lemma NextRow(p0: Pre, p: Pre, pos: seq<nat>, neg: seq<nat>, v: nat, i: nat)
    requires i < |pos|
    ensures Resolved(p0, p, pos, neg, v, i, |neg|) ==> Resolved(p0, p, pos, neg, v, i + 1, 0)
  {
    forall m: Model | PairsBefore(m, p0, pos, neg, v, i, |neg|)
      ensures PairsBefore(m, p0, pos, neg, v, i + 1, 0)
    {
    }
  }

  lemma PairsBeforeNext(m: Model, p0: Pre, pos: seq<nat>, neg: seq<nat>, v: nat, i: nat, j: nat)
    requires i < |pos| && j < |neg| && PairsBefore(m, p0, pos, neg, v, i, j) && PairAt(m, p0, pos[i], neg[j], v)
    ensures PairsBefore(m, p0, pos, neg, v, i, j + 1)
  {
  }

  lemma ResolventResolves(p0: Pre, p: Pre, pos: seq<nat>, neg: seq<nat>, v: nat, i: nat, j: nat, out: seq<Lit>)
    requires PreOk(p0) && SplitOn(p0, v, pos, neg) && i < |pos| && j < |neg| && Joins(p0, p, v)
    requires pos[i] in p.ca && neg[j] in p.ca && forall l :: l in out <==> l in Resolvent(p.ca[pos[i]].lits, p.ca[neg[j]].lits, v)
    ensures Resolves(p, out)
  {
    PreClause(p0, pos[i]);
    PreClause(p0, neg[j]);
    assert ResolvesFrom(p.ca, p.t, out, pos[i], neg[j], v);
  }

  lemma JoinsMore(p0: Pre, p1: Pre, p: Pre, v: nat, out: seq<Lit>)
    requires Joins(p0, p1, v) && Gains(p1, p, out) && FromParents(p0, out, v)
    ensures Joins(p0, p, v)
  {
    NoVar(out, v, p0);
    forall x | x in p.ca && x !in p0.ca
      ensures FromParents(p0, p.ca[x].lits, v)
    {
      assert x in p1.ca || forall l :: l in p.ca[x].lits ==> l in out;
    }
  }

  lemma NoVar(c: seq<Lit>, v: nat, p0: Pre)
    requires FromParents(p0, c, v)
    ensures !HasVar(c, v)
  {
    forall i | 0 <= i < |c|
      ensures c[i].v != v
    {
      assert c[i] in c;
    }
  }

  lemma PairAdded(p0: Pre, p1: Pre, p: Pre, pos: seq<nat>, neg: seq<nat>, v: nat, i: nat, j: nat, out: seq<Lit>, good: bool)
    requires PreOk(p0) && SplitOn(p0, v, pos, neg) && i < |pos| && j < |neg| && SameModels(p0, p1) && Adds(p1, out, p, good)
    requires pos[i] in p0.ca && neg[j] in p0.ca && !Clash(p0.ca[pos[i]].lits, p0.ca[neg[j]].lits, v)
    requires forall l :: l in out <==> l in Resolvent(p0.ca[pos[i]].lits, p0.ca[neg[j]].lits, v)
    ensures if good then SameModels(p0, p) else Refuted(p0)
  {
    forall m: Model | Models(m, p0)
      ensures SatClause(m, out)
    {
      PairFollows(m, p0, v, pos[i], neg[j]);
      var l :| l in Resolvent(p0.ca[pos[i]].lits, p0.ca[neg[j]].lits, v) && Holds(m, l);
      SatClauseOf(m, out, l);
    }
  }

  lemma PairResolved(p0: Pre, p1: Pre, p: Pre, pos: seq<nat>, neg: seq<nat>, v: nat, i: nat, j: nat, out: seq<Lit>)
    requires Resolved(p0, p1, pos, neg, v, i, j) && Joins(p0, p1, v) && Accounts(p1, out, p) && i < |pos| && j < |neg|
    requires pos[i] in p0.ca && neg[j] in p0.ca
    requires forall l :: l in out <==> l in Resolvent(p0.ca[pos[i]].lits, p0.ca[neg[j]].lits, v)
    ensures Resolved(p0, p, pos, neg, v, i, j + 1)
  {
    forall m: Model, ex: set<nat> | ex <= p0.ca.Keys && ModelsExcept(m, p, ex)
      ensures ModelsExcept(m, p0, ex) && PairsBefore(m, p0, pos, neg, v, i, j + 1)
    {
      assert ex <= p1.ca.Keys;
      assert ModelsExcept(m, p1, ex) && SatClause(m, out);
      var k :| 0 <= k < |out| && Holds(m, out[k]);
      assert out[k] in out;
      PairsBeforeNext(m, p0, pos, neg, v, i, j);
    }
  }

  lemma PairClashes(p0: Pre, p: Pre, pos: seq<nat>, neg: seq<nat>, v: nat, i: nat, j: nat)
    requires i < |pos| && j < |neg| && pos[i] in p0.ca && neg[j] in p0.ca && Clash(p0.ca[pos[i]].lits, p0.ca[neg[j]].lits, v)
    ensures Resolved(p0, p, pos, neg, v, i, j) ==> Resolved(p0, p, pos, neg, v, i, j + 1)
  {
    forall m: Model | PairsBefore(m, p0, pos, neg, v, i, j)
      ensures PairsBefore(m, p0, pos, neg, v, i, j + 1)
    {
      PairsBeforeNext(m, p0, pos, neg, v, i, j);
    }
  }

  // ---------- removing the clauses of an eliminated variable ----------

  /** q is p with exactly the listed clauses deleted. */
  ghost predicate Purged(p: Pre, q: Pre, cls: seq<nat>) {
    PurgedPrefix(p, q, cls, |cls|)
  }

  ghost predicate PurgedPrefix(p: Pre, q: Pre, cls: seq<nat>, i: nat) {
    && q.t == p.t && q.next == p.next && q.ca.Keys == p.ca.Keys
    && (forall k :: 0 <= k < i && k < |cls| ==> !Alive(q.ca, cls[k]))
    && (forall x :: x in p.ca && x !in cls ==> q.ca[x] == p.ca[x])
  }

  lemma PurgedModels(m: Model, p: Pre, q: Pre, cls: seq<nat>, ex: set<nat>)
    requires Purged(p, q, cls) && forall x :: x in ex <==> x in cls
    ensures Models(m, q) <==> ModelsExcept(m, p, ex)
  {
    if Models(m, q) {
      forall x | Alive(p.ca, x) && x !in ex
        ensures SatClause(m, p.ca[x].lits)
      {
        assert Alive(q.ca, x);
      }
    }
    if ModelsExcept(m, p, ex) {
      forall x | Alive(q.ca, x)
        ensures SatClause(m, q.ca[x].lits)
      {
        assert x !in cls && Alive(p.ca, x);
      }
    }
  }

  /** The list of a variable without live clauses may be cleared. */
  lemma ClearedOk(p: Pre, v: nat)
    requires PreOk(p) && v < |p.occurs| && forall x :: Alive(p.ca, x) ==> !HasVar(p.ca[x].lits, v)
    ensures PreOk(p.(occurs := p.occurs[v := []]))
  {
    var q := p.(occurs := p.occurs[v := []]);
    forall x | Alive(q.ca, x)
      ensures Indexed(q, x)
    {
      assert Indexed(p, x) && !HasVar(p.ca[x].lits, v);
    }
    forall u | 0 <= u < |p.t.assigns|
      ensures OccList(q.ca, q.occurs[u], u, q.dirty[u])
    {
      assert OccList(p.ca, p.occurs[u], u, p.dirty[u]);
    }
  }

  // ---------- the reconstruction stack ----------

  ghost function Remaining(eliminated: seq<bool>): set<nat> {
    set v: nat | v < |eliminated| && !eliminated[v]
  }

  /** The stack packs records of eliminated variables; read backwards from a model of the
      remaining variables, it always finds its variables defined and defines all eliminated ones. */
  ghost predicate StackOk(p: Pre, eliminated: seq<bool>, elimclauses: seq<nat>, records: seq<Record>) {
    && NoneEliminated(p, eliminated) && elimclauses == Packed(records) && RecordsFit(records, |eliminated|)
    && (forall i :: 0 <= i < |records| ==> records[i][0].v < |eliminated| && eliminated[records[i][0].v])
    && Readable(records, Remaining(eliminated))
    && (forall v: nat :: v < |eliminated| ==> v in DefinedAfter(records, Remaining(eliminated)))
  }

  /** Models of the original clauses are models of p; unless eliminations lost something, models
      of p lift back. */
  ghost predicate Faithful(p: Pre, original: set<seq<Lit>>, records: seq<Record>, lossy: bool)
    requires AllNonempty(records)
  {
    && (forall m: Model :: SatAll(m, original) ==> Models(m, p))
    && (!lossy ==> forall m: Model :: Models(m, p) ==> SatAll(Lift(m, records), original))
  }

  /** The literals of the records other than the first belong to remaining variables. */
  ghost predicate RecordOf(r: Record, v: nat, eliminated: seq<bool>) {
    && r != [] && r[0].v == v && v < |eliminated|
    && forall i :: 1 <= i < |r| ==> r[i].v < |eliminated| && !eliminated[r[i].v] && r[i].v != v
  }

  lemma {:induction false} SideReadable(recs: seq<Record>, v: nat, vs: set<nat>)
    requires AllNonempty(recs)
    requires forall i :: 0 <= i < |recs| ==> forall k :: 1 <= k < |recs[i]| ==> recs[i][k].v in vs
    ensures Readable(recs, vs)
    decreases |recs|
  {
    if recs != [] {
      var last := |recs| - 1;
      forall i | 0 <= i < last
        ensures forall k :: 1 <= k < |recs[..last][i]| ==> recs[..last][i][k].v in vs + Defines(recs[last])
      {
        assert recs[..last][i] == recs[i];
      }
      SideReadable(recs[..last], v, vs + Defines(recs[last]));
    }
  }

  /** The records of one elimination define its variable from the remaining ones. */
  lemma RecordsReadable(recs: seq<Record>, v: nat, eliminated: seq<bool>)
    requires v < |eliminated| && !eliminated[v] && |recs| >= 1 && |recs[|recs| - 1]| == 1
    requires forall i :: 0 <= i < |recs| ==> RecordOf(recs[i], v, eliminated)
    ensures AllNonempty(recs) && Readable(recs, Remaining(eliminated[v := true]))
    ensures Remaining(eliminated) <= DefinedAfter(recs, Remaining(eliminated[v := true]))
  {
    var vs, vs' := Remaining(eliminated), Remaining(eliminated[v := true]);
    var last := |recs| - 1;
    assert RecordOf(recs[last], v, eliminated);
    var before: seq<Record> := recs[..last];
    forall i | 0 <= i < |before|
      ensures before[i] != [] && forall k :: 1 <= k < |before[i]| ==> before[i][k].v in vs
    {
      assert before[i] == recs[i] && RecordOf(recs[i], v, eliminated);
    }
    forall i | 0 <= i < |recs|
      ensures recs[i] != []
    {
      assert RecordOf(recs[i], v, eliminated);
    }
    SideReadable(before, v, vs);
    assert vs' + Defines(recs[last]) == vs;
    DefinedAfterGrows(before, vs);
  }

  /** The stack after an elimination. */
  lemma StackPush(p0: Pre, q: Pre, eliminated: seq<bool>, records: seq<Record>, recs: seq<Record>, v: nat, elimclauses': seq<nat>)
    requires StackOk(p0, eliminated, Packed(records), records) && v < |eliminated| && !eliminated[v]
    requires |recs| >= 1 && |recs[|recs| - 1]| == 1 && elimclauses' == Packed(records + recs)
    requires forall i :: 0 <= i < |recs| ==> RecordOf(recs[i], v, eliminated)
    requires NoneEliminated(q, eliminated[v := true])
    ensures StackOk(q, eliminated[v := true], elimclauses', records + recs)
  {
    hide NoneEliminated, Packed, Readable, DefinedAfter, Remaining, RecordOf;
    var vs, vs' := Remaining(eliminated), Remaining(eliminated[v := true]);
    RecordsReadable(recs, v, eliminated);
    ReadableMore(records, vs, DefinedAfter(recs, vs'));
    ReadableConcat(records, recs, vs');
    StackHeads(records, recs, v, eliminated);
  }

  lemma StackHeads(records: seq<Record>, recs: seq<Record>, v: nat, eliminated: seq<bool>)
    requires RecordsFit(records, |eliminated|) && v < |eliminated|
    requires forall i :: 0 <= i < |records| ==> records[i][0].v < |eliminated| && eliminated[records[i][0].v]
    requires forall i :: 0 <= i < |recs| ==> RecordOf(recs[i], v, eliminated)
    ensures RecordsFit(records + recs, |eliminated|)
    ensures var all: seq<Record> := records + recs; var eliminated' := eliminated[v := true];
            forall i :: 0 <= i < |all| ==> all[i][0].v < |eliminated| && eliminated'[all[i][0].v]
  {
    var all: seq<Record> := records + recs;
    var eliminated' := eliminated[v := true];
    forall i | 0 <= i < |all|
      ensures all[i] != [] && InBounds(all[i], |eliminated|) && all[i][0].v < |eliminated| && eliminated'[all[i][0].v]
    {
      if i < |records| {
        assert all[i] == records[i] && InBounds(records[i], |eliminated|);
      } else {
        assert all[i] == recs[i - |records|] && RecordOf(recs[i - |records|], v, eliminated);
        forall k | 0 <= k < |all[i]|
          ensures all[i][k].v < |eliminated|
        {
        }
      }
    }
  }

  // ---------- one elimination ----------

  lemma LookedStack(p: Pre, q: Pre, eliminated: seq<bool>, elimclauses: seq<nat>, records: seq<Record>,
                    original: set<seq<Lit>>, lossy: bool)
    requires q == p.(occurs := q.occurs, dirty := q.dirty)
    requires StackOk(p, eliminated, elimclauses, records) && Faithful(p, original, records, lossy)
    ensures StackOk(q, eliminated, elimclauses, records) && Faithful(q, original, records, lossy)
  {
    assert forall m: Model :: Models(m, p) <==> Models(m, q);
  }

  lemma LookedQueue(p: Pre, q: Pre, queue: seq<nat>, l: Lit)
    requires q == p.(occurs := q.occurs, dirty := q.dirty) && QueueOk(p, queue, l)
    ensures QueueOk(q, queue, l)
  {
  }

  lemma ContinuesTransitive(t: Trail, u: Trail, w: Trail)
    requires Continues(t, u) && Continues(u, w)
    ensures Continues(t, w)
  {
    forall v: nat | t.Assigned(v)
      ensures w.assigns[v] == t.assigns[v]
    {
      assert u.Assigned(v);
    }
  }

  lemma PosNegAlive(p: Pre, v: nat, pos: seq<nat>, neg: seq<nat>)
    requires PreOk(p) && SplitOn(p, v, pos, neg)
    ensures forall i :: 0 <= i < |pos| ==> Alive(p.ca, pos[i]) && Lit(v, false) in p.ca[pos[i]].lits
    ensures forall i :: 0 <= i < |neg| ==> Alive(p.ca, neg[i]) && Lit(v, true) in p.ca[neg[i]].lits
    ensures OneSide(LitsOf(p.ca, pos), v) && OneSide(LitsOf(p.ca, neg), v)
  {
    forall i | 0 <= i < |pos|
      ensures DistinctVars(LitsOf(p.ca, pos)[i]) && HasVar(LitsOf(p.ca, pos)[i], v)
    {
      PreClause(p, pos[i]);
      SignPosition(p.ca[pos[i]].lits, Lit(v, false));
    }
    forall i | 0 <= i < |neg|
      ensures DistinctVars(LitsOf(p.ca, neg)[i]) && HasVar(LitsOf(p.ca, neg)[i], v)
    {
      PreClause(p, neg[i]);
      SignPosition(p.ca[neg[i]].lits, Lit(v, true));
    }
  }

  lemma StackPacked(p: Pre, eliminated: seq<bool>, elimclauses: seq<nat>, records: seq<Record>)
    requires StackOk(p, eliminated, elimclauses, records)
    ensures elimclauses == Packed(records) && AllNonempty(records)
  {
  }

  lemma JoinedTrail(p0: Pre, p: Pre, v: nat)
    requires Joins(p0, p, v)
    ensures Continues(p0.t, p.t) && |p.t.assigns| == |p0.t.assigns| && p0.next <= p.next && |p0.t.lits| <= |p.t.lits|
    ensures v < |p0.occurs| ==> v < |p.occurs| && p.occurs[v] == p0.occurs[v]
  {
  }

  lemma JoinedAlive(p0: Pre, p: Pre, v: nat, cls: seq<nat>)
    requires Joins(p0, p, v) && forall i :: 0 <= i < |cls| ==> Alive(p0.ca, cls[i])
    ensures forall i :: 0 <= i < |cls| ==> Alive(p.ca, cls[i])
  {
  }

  lemma PurgedTrail(p: Pre, q: Pre, cls: seq<nat>)
    requires Purged(p, q, cls)
    ensures q.t == p.t && q.next == p.next && q.ca.Keys == p.ca.Keys && Continues(p.t, q.t)
  {
  }

  lemma FaithfulRefuted(p: Pre, eliminated: seq<bool>, records: seq<Record>, original: set<seq<Lit>>, lossy: bool)
    requires AllNonempty(records) && Faithful(p, original, records, lossy) && Refuted(p)
    ensures Unsat(original)
  {
  }

  lemma AfterCheck(p: Pre, q: Pre, eliminated: seq<bool>, elimclauses: seq<nat>, records: seq<Record>,
                   original: set<seq<Lit>>, lossy: bool, good: bool)
    requires StackOk(p, eliminated, elimclauses, records) && Faithful(p, original, records, lossy) && Reduces(p, q)
    requires if good then SameModels(p, q) else Refuted(p)
    ensures |q.t.assigns| == |p.t.assigns| && q.next == p.next && Continues(p.t, q.t)
    ensures good ==> StackOk(q, eliminated, elimclauses, records) && Faithful(q, original, records, lossy)
    ensures !good ==> Unsat(original)
  {
    ReducesAvoids(p, q, eliminated);
  }

  ghost predicate NoneWith(p: Pre, v: nat) {
    forall x :: Alive(p.ca, x) ==> !HasVar(p.ca[x].lits, v)
  }

  /** The state after an elimination: the clauses of v are gone, the stack brings them back. */
  lemma EliminationDone(p0: Pre, p1: Pre, p2: Pre, v: nat, pos: seq<nat>, neg: seq<nat>, recs: seq<Record>, s: Lit,
                        eliminated: seq<bool>, records: seq<Record>, original: set<seq<Lit>>, lossy: bool, rcheck: bool, elimclauses': seq<nat>)
    requires PreOk(p0) && SplitOn(p0, v, pos, neg) && !p0.t.Assigned(v) && v < |eliminated| && !eliminated[v] && v < |p0.occurs|
    requires StackOk(p0, eliminated, Packed(records), records) && Faithful(p0, original, records, lossy)
    requires Joins(p0, p1, v) && SameModels(p0, p1) && (if rcheck then p1 == p0 else Resolved(p0, p1, pos, neg, v, |pos|, 0))
    requires Covers(pos, neg, p1.occurs[v]) && Purged(p1, p2, p1.occurs[v]) && p2.occurs == p1.occurs && s.v == v
    requires EliminationRecords(recs, LitsOf(p0.ca, if s.neg then neg else pos), s) && elimclauses' == Packed(records + recs)
    ensures v < |p2.occurs| && NoneWith(p2, v)
    ensures StackOk(p2, eliminated[v := true], elimclauses', records + recs)
    ensures Faithful(p2, original, records + recs, Loses(p0, v, pos, neg, lossy, rcheck))
    ensures AllNonempty(recs) && Kept(p0, p2, v, pos, neg, recs, rcheck)
  {
    hide PreOk, StackOk, Faithful, SameModels, Joins, Resolved, EliminationRecords, Purged, HasVar, NoneEliminated, Covers, NoneWith;
    hide Kept, Loses, SplitOn;
    StackPacked(p0, eliminated, Packed(records), records);
    NothingLeft(p0, p1, p2, v, pos, neg, eliminated, records);
    RecordsOfElimination(p0, v, pos, neg, recs, s, eliminated, records);
    StackPush(p0, p2, eliminated, records, recs, v, elimclauses');
    EliminationKept(p0, p1, p2, v, pos, neg, recs, s, rcheck);
    EliminationFaithful(p0, p1, p2, v, pos, neg, recs, records, original, lossy, rcheck);
  }

  /** Clearing the list of an eliminated variable changes nothing else. */
  lemma ClearedState(p: Pre, v: nat, eliminated: seq<bool>, elimclauses: seq<nat>, records: seq<Record>,
                     original: set<seq<Lit>>, lossy: bool)
    requires PreOk(p) && v < |p.occurs| && NoneWith(p, v)
    requires StackOk(p, eliminated, elimclauses, records) && Faithful(p, original, records, lossy)
    ensures var q := p.(occurs := p.occurs[v := []]);
            PreOk(q) && StackOk(q, eliminated, elimclauses, records) && Faithful(q, original, records, lossy)
  {
    hide StackOk, Faithful;
    var q := p.(occurs := p.occurs[v := []]);
    ClearedOk(p, v);
    LookedStack(p, q, eliminated, elimclauses, records, original, lossy);
  }

  lemma NothingLeft(p0: Pre, p1: Pre, p2: Pre, v: nat, pos: seq<nat>, neg: seq<nat>, eliminated: seq<bool>, records: seq<Record>)
    requires SplitOn(p0, v, pos, neg) && v < |eliminated| && v < |p0.occurs|
    requires StackOk(p0, eliminated, Packed(records), records) && Joins(p0, p1, v)
    requires Covers(pos, neg, p1.occurs[v])
    requires Purged(p1, p2, p1.occurs[v]) && p2.occurs == p1.occurs
    ensures v < |p2.occurs| && NoneWith(p2, v)
    ensures NoneEliminated(p2, eliminated[v := true])
  {
    forall x | Alive(p2.ca, x)
      ensures !HasVar(p2.ca[x].lits, v) && AvoidsEliminated(p2.ca[x].lits, eliminated[v := true])
    {
      assert x !in p1.occurs[v] && p2.ca[x] == p1.ca[x];
      if x in p0.ca {
        assert !(x in pos + neg);
        assert AvoidsEliminated(p0.ca[x].lits, eliminated);
      } else {
        assert FromParents(p0, p1.ca[x].lits, v);
        NoVar(p1.ca[x].lits, v, p0);
        ParentsAvoid(p0, p1.ca[x].lits, v, eliminated);
      }
      AvoidsMore(p2.ca[x].lits, eliminated, v);
    }
  }

  lemma ParentsAvoid(p0: Pre, c: seq<Lit>, v: nat, eliminated: seq<bool>)
    requires NoneEliminated(p0, eliminated) && FromParents(p0, c, v)
    ensures AvoidsEliminated(c, eliminated)
  {
    forall i | 0 <= i < |c|
      ensures c[i].v < |eliminated| && !eliminated[c[i].v]
    {
      assert c[i] in c;
      var x :| Alive(p0.ca, x) && c[i] in p0.ca[x].lits;
      assert AvoidsEliminated(p0.ca[x].lits, eliminated);
    }
  }

  lemma AvoidsMore(c: seq<Lit>, eliminated: seq<bool>, v: nat)
    requires AvoidsEliminated(c, eliminated) && !HasVar(c, v) && v < |eliminated|
    ensures AvoidsEliminated(c, eliminated[v := true])
  {
  }

  lemma RecordsOfElimination(p0: Pre, v: nat, pos: seq<nat>, neg: seq<nat>, recs: seq<Record>, s: Lit,
                             eliminated: seq<bool>, records: seq<Record>)
    requires PreOk(p0) && SplitOn(p0, v, pos, neg) && v < |eliminated| && s.v == v
    requires StackOk(p0, eliminated, Packed(records), records)
    requires EliminationRecords(recs, LitsOf(p0.ca, if s.neg then neg else pos), s)
    ensures |recs| >= 1 && |recs[|recs| - 1]| == 1
    ensures forall i :: 0 <= i < |recs| ==> RecordOf(recs[i], v, eliminated)
  {
    var side := if s.neg then neg else pos;
    forall i | 0 <= i < |recs|
      ensures RecordOf(recs[i], v, eliminated)
    {
      if i < |recs| - 1 {
        assert Records(recs[..|recs| - 1][i], LitsOf(p0.ca, side)[i], s);
        assert AvoidsEliminated(p0.ca[side[i]].lits, eliminated);
        RecordAvoids(recs[i], p0.ca[side[i]].lits, s, eliminated);
      }
    }
  }

  lemma RecordAvoids(r: Record, c: seq<Lit>, s: Lit, eliminated: seq<bool>)
    requires Records(r, c, s) && AvoidsEliminated(c, eliminated)
    ensures RecordOf(r, s.v, eliminated)
  {
    forall i | 0 <= i < |r|
      ensures r[i].v < |eliminated| && !eliminated[r[i].v]
    {
      assert r[i] in c;
      var k :| 0 <= k < |c| && c[k] == r[i];
    }
  }

  /** The account after one more elimination. */
  lemma EliminationFaithful(p0: Pre, p1: Pre, p2: Pre, v: nat, pos: seq<nat>, neg: seq<nat>, recs: seq<Record>,
                            records: seq<Record>, original: set<seq<Lit>>, lossy: bool, rcheck: bool)
    requires SplitOn(p0, v, pos, neg) && AllNonempty(records) && AllNonempty(recs) && AllNonempty(records + recs)
    requires Faithful(p0, original, records, lossy) && Kept(p0, p2, v, pos, neg, recs, rcheck)
    requires SameModels(p0, p1) && v < |p1.occurs| && Purged(p1, p2, p1.occurs[v])
    ensures Faithful(p2, original, records + recs, Loses(p0, v, pos, neg, lossy, rcheck))
  {
    hide Models, SameModels, Purged, SplitOn, PairsImplied;
    StillFaithful(p0, p1, p2, v, original, records, lossy);
    if !Loses(p0, v, pos, neg, lossy, rcheck) {
      forall m: Model | Models(m, p2)
        ensures SatAll(Lift(m, records + recs), original)
      {
        LiftConcat(m, records, recs);
      }
    }
  }

  lemma StillFaithful(p0: Pre, p1: Pre, p2: Pre, v: nat, original: set<seq<Lit>>, records: seq<Record>, lossy: bool)
    requires AllNonempty(records) && Faithful(p0, original, records, lossy)
    requires SameModels(p0, p1) && v < |p1.occurs| && Purged(p1, p2, p1.occurs[v])
    ensures forall m: Model :: SatAll(m, original) ==> Models(m, p2)
  {
    hide Models, SameModels, Purged;
    var ex := set x | x in p1.occurs[v];
    forall m: Model | SatAll(m, original)
      ensures Models(m, p2)
    {
      StillModels(m, p0, p1, p2, p1.occurs[v], ex);
    }
  }

  lemma LiftedNonempty(p0: Pre, v: nat, pos: seq<nat>, neg: seq<nat>, recs: seq<Record>, s: Lit, records: seq<Record>)
    requires SplitOn(p0, v, pos, neg) && s.v == v && AllNonempty(records)
    requires EliminationRecords(recs, LitsOf(p0.ca, if s.neg then neg else pos), s)
    ensures AllNonempty(recs) && AllNonempty(records + recs)
  {
    hide EliminationRecords;
    LiftElimination(iset{}, recs, LitsOf(p0.ca, if s.neg then neg else pos), s);
    LiftConcat(iset{}, records, recs);
  }

  // ---------- what an elimination keeps ----------

  /** Every model of q lifts to a model of p. */
  ghost predicate LiftsAll(p: Pre, q: Pre, recs: seq<Record>)
    requires AllNonempty(recs)
  {
    forall m: Model :: Models(m, q) ==> Models(Lift(m, recs), p)
  }

  /** In every model of the clauses without v each pair of clauses of v clashes or has a true
      resolvent. */
  ghost predicate PairsImplied(p: Pre, v: nat, pos: seq<nat>, neg: seq<nat>)
    requires SplitOn(p, v, pos, neg)
  {
    forall m: Model :: ModelsOff(m, p, v) ==> PairsHold(m, LitsOf(p.ca, pos), LitsOf(p.ca, neg), v)
  }

  /** What is left after the elimination of v with rcheck on or off: its models lift back exactly
      if rcheck is off or the clauses without v imply the pairs. */
  ghost predicate Kept(p: Pre, q: Pre, v: nat, pos: seq<nat>, neg: seq<nat>, recs: seq<Record>, rcheck: bool)
    requires SplitOn(p, v, pos, neg) && AllNonempty(recs)
  {
    && (LiftsAll(p, q, recs) <==> !rcheck || PairsImplied(p, v, pos, neg))
    && (rcheck ==> OnlyWithout(p, q, v))
  }

  /** q says what the clauses of p without v say. */
  ghost predicate OnlyWithout(p: Pre, q: Pre, v: nat) {
    forall m: Model :: Models(m, q) <==> ModelsOff(m, p, v)
  }

  /** Whether models may fail to lift after the elimination of v. */
  ghost predicate Loses(p: Pre, v: nat, pos: seq<nat>, neg: seq<nat>, lossy: bool, rcheck: bool)
    requires SplitOn(p, v, pos, neg)
  {
    lossy || (rcheck && !PairsImplied(p, v, pos, neg))
  }

  lemma KeptSame(p: Pre, q: Pre, q': Pre, v: nat, pos: seq<nat>, neg: seq<nat>, recs: seq<Record>, rcheck: bool)
    requires SplitOn(p, v, pos, neg) && AllNonempty(recs) && Kept(p, q, v, pos, neg, recs, rcheck) && SameModels(q, q')
    ensures Kept(p, q', v, pos, neg, recs, rcheck)
  {
    hide SplitOn, PairsImplied, Models;
  }

  /** Cleaning the list of v and clearing it change nothing about that. */
  lemma KeptLooked(p: Pre, p': Pre, q: Pre, v: nat, pos: seq<nat>, neg: seq<nat>, recs: seq<Record>, lossy: bool, rcheck: bool)
    requires SplitOn(p, v, pos, neg) && p' == p.(occurs := p'.occurs, dirty := p'.dirty) && AllNonempty(recs)
    ensures SplitOn(p', v, pos, neg) && LitsOf(p.ca, pos) == LitsOf(p'.ca, pos) && LitsOf(p.ca, neg) == LitsOf(p'.ca, neg)
    ensures Kept(p', q, v, pos, neg, recs, rcheck) ==> Kept(p, q, v, pos, neg, recs, rcheck)
    ensures Loses(p', v, pos, neg, lossy, rcheck) == Loses(p, v, pos, neg, lossy, rcheck)
    ensures !rcheck ==> Loses(p, v, pos, neg, lossy, rcheck) == lossy
    ensures PairCount(LitsOf(p.ca, pos), LitsOf(p.ca, neg), v) == 0 ==> Loses(p, v, pos, neg, lossy, rcheck) == lossy
  {
    if PairCount(LitsOf(p.ca, pos), LitsOf(p.ca, neg), v) == 0 {
      ClashesLoseNothing(p, v, pos, neg);
    }
    assert forall m: Model :: Models(m, p) <==> Models(m, p');
    assert forall m: Model :: ModelsOff(m, p, v) <==> ModelsOff(m, p', v);
  }

  lemma KeptCleared(p: Pre, q: Pre, v: nat, pos: seq<nat>, neg: seq<nat>, recs: seq<Record>, rcheck: bool)
    requires SplitOn(p, v, pos, neg) && AllNonempty(recs) && Kept(p, q, v, pos, neg, recs, rcheck) && v < |q.occurs|
    ensures Kept(p, q.(occurs := q.occurs[v := []]), v, pos, neg, recs, rcheck)
  {
    assert forall m: Model :: Models(m, q) <==> Models(m, q.(occurs := q.occurs[v := []]));
  }

  /** The subsumption check that follows keeps the models. */
  lemma AfterElimination(p: Pre, q: Pre, q': Pre, v: nat, pos: seq<nat>, neg: seq<nat>, recs: seq<Record>, rcheck: bool, good: bool)
    requires SplitOn(p, v, pos, neg) && AllNonempty(recs) && Kept(p, q, v, pos, neg, recs, rcheck)
    requires if good then SameModels(q, q') else Refuted(q)
    ensures good ==> Kept(p, q', v, pos, neg, recs, rcheck)
    ensures !good && rcheck ==> forall m: Model :: !ModelsOff(m, p, v)
  {
    if good {
      KeptSame(p, q, q', v, pos, neg, recs, rcheck);
    }
  }

  lemma EliminationKept(p0: Pre, p1: Pre, p2: Pre, v: nat, pos: seq<nat>, neg: seq<nat>, recs: seq<Record>, s: Lit, rcheck: bool)
    requires PreOk(p0) && SplitOn(p0, v, pos, neg) && !p0.t.Assigned(v) && s.v == v && Joins(p0, p1, v) && v < |p1.occurs|
    requires if rcheck then p1 == p0 else Resolved(p0, p1, pos, neg, v, |pos|, 0)
    requires Covers(pos, neg, p1.occurs[v]) && Purged(p1, p2, p1.occurs[v]) && AllNonempty(recs)
    requires EliminationRecords(recs, LitsOf(p0.ca, if s.neg then neg else pos), s)
    ensures Kept(p0, p2, v, pos, neg, recs, rcheck)
  {
    hide PreOk, Models, Joins, Resolved, EliminationRecords, Purged, Covers, SplitOn, PairsImplied;
    if rcheck {
      PurgedWithout(p0, p2, v, pos, neg);
      LiftsExactly(p0, p2, v, pos, neg, recs, s);
    } else {
      forall m: Model | Models(m, p2)
        ensures Models(Lift(m, recs), p0)
      {
        LiftsThrough(m, p0, p1, p2, v, pos, neg, recs, s);
      }
    }
  }

  lemma PurgedWithout(p: Pre, q: Pre, v: nat, pos: seq<nat>, neg: seq<nat>)
    requires SplitOn(p, v, pos, neg) && v < |p.occurs| && Covers(pos, neg, p.occurs[v]) && Purged(p, q, p.occurs[v])
    ensures OnlyWithout(p, q, v)
  {
    var cls := p.occurs[v];
    var ex := set x | x in cls;
    forall x | Alive(p.ca, x)
      ensures x in ex <==> HasVar(p.ca[x].lits, v)
    {
      assert x in cls <==> x in pos + neg;
      if x in pos + neg {
        SplitMember(p, v, pos, neg, x);
      }
    }
    hide HasVar, SplitOn, Purged;
    forall m: Model
      ensures Models(m, q) <==> ModelsOff(m, p, v)
    {
      PurgedModels(m, p, q, cls, ex);
    }
  }

  /** Where the clauses of v were dropped without their resolvents, every model of the rest lifts
      if and only if the rest implies the pairs. */
  lemma LiftsExactly(p: Pre, q: Pre, v: nat, pos: seq<nat>, neg: seq<nat>, recs: seq<Record>, s: Lit)
    requires PreOk(p) && SplitOn(p, v, pos, neg) && !p.t.Assigned(v) && s.v == v && OnlyWithout(p, q, v)
    requires EliminationRecords(recs, LitsOf(p.ca, if s.neg then neg else pos), s) && AllNonempty(recs)
    ensures LiftsAll(p, q, recs) <==> PairsImplied(p, v, pos, neg)
  {
    var ps, ns := LitsOf(p.ca, pos), LitsOf(p.ca, neg);
    hide PreOk, Models, EliminationRecords, SplitOn, PairsHold, ModelsOff;
    forall m: Model | Models(m, q) && PairsHold(m, ps, ns, v)
      ensures Models(Lift(m, recs), p)
    {
      PairsSwap(m, ps, ns, v);
      EliminationLifts(m, p, v, pos, neg, recs, s);
    }
    forall m: Model | Models(m, q) && Models(Lift(m, recs), p)
      ensures PairsHold(m, ps, ns, v)
    {
      PairsFollow(Lift(m, recs), p, v, pos, neg);
      LiftElimination(m, recs, LitsOf(p.ca, if s.neg then neg else pos), s);
      PairsOff(m, Lift(m, recs), ps, ns, v);
    }
  }

  lemma PairsSwap(m: Model, cs: seq<seq<Lit>>, ds: seq<seq<Lit>>, v: nat)
    requires PairsHold(m, cs, ds, v)
    ensures PairsHold(m, ds, cs, v)
  {
    forall i, j | 0 <= i < |ds| && 0 <= j < |cs|
      ensures PairHolds(m, ds[i], cs[j], v)
    {
      assert PairHolds(m, cs[j], ds[i], v);
      ClashSymmetric(cs[j], ds[i], v);
    }
  }

  /** The value of v does not matter for its pairs. */
  lemma PairsOff(m: Model, m': Model, cs: seq<seq<Lit>>, ds: seq<seq<Lit>>, v: nat)
    requires AgreeOff(m, m', v) && PairsHold(m', cs, ds, v)
    ensures PairsHold(m, cs, ds, v)
  {
    forall i, j | 0 <= i < |cs| && 0 <= j < |ds|
      ensures PairHolds(m, cs[i], ds[j], v)
    {
      assert PairHolds(m', cs[i], ds[j], v);
    }
  }

  /** A variable none of whose pairs has a consistent resolvent is eliminated without loss. */
  lemma ClashesLoseNothing(p: Pre, v: nat, pos: seq<nat>, neg: seq<nat>)
    requires SplitOn(p, v, pos, neg) && PairCount(LitsOf(p.ca, pos), LitsOf(p.ca, neg), v) == 0
    ensures PairsImplied(p, v, pos, neg)
  {
    var ps, ns := LitsOf(p.ca, pos), LitsOf(p.ca, neg);
    forall i, j | 0 <= i < |ps| && 0 <= j < |ns|
      ensures Clash(ps[i], ns[j], v)
    {
      PairCountGrows(ps, ns, v, i, j + 1);
      RowCountNext(ps[i], ns, v, j);
    }
    hide SplitOn, ModelsOff;
    assert forall m: Model :: PairsHold(m, ps, ns, v);
  }

  lemma LiftsThrough(m: Model, p0: Pre, p1: Pre, p2: Pre, v: nat, pos: seq<nat>, neg: seq<nat>, recs: seq<Record>, s: Lit)
    requires SplitOn(p0, v, pos, neg) && !p0.t.Assigned(v) && s.v == v && Joins(p0, p1, v) && v < |p1.occurs|
    requires Resolved(p0, p1, pos, neg, v, |pos|, 0) && Covers(pos, neg, p1.occurs[v]) && Purged(p1, p2, p1.occurs[v])
    requires EliminationRecords(recs, LitsOf(p0.ca, if s.neg then neg else pos), s) && Models(m, p2)
    ensures AllNonempty(recs) && Models(Lift(m, recs), p0)
  {
    hide Models, Joins, Resolved, EliminationRecords, Purged, SplitOn;
    var ex := set x | x in p1.occurs[v];
    PurgedModels(m, p1, p2, p1.occurs[v], ex);
    LiftsBack(m, p0, p1, v, pos, neg, recs, s, ex);
  }

  lemma StillModels(m: Model, p0: Pre, p1: Pre, p2: Pre, cls: seq<nat>, ex: set<nat>)
    requires Models(m, p0) && SameModels(p0, p1) && Purged(p1, p2, cls) && forall x :: x in ex <==> x in cls
    ensures Models(m, p2)
  {
    PurgedModels(m, p1, p2, cls, ex);
  }

  lemma LiftsBack(m: Model, p0: Pre, p1: Pre, v: nat, pos: seq<nat>, neg: seq<nat>, recs: seq<Record>, s: Lit, ex: set<nat>)
    requires SplitOn(p0, v, pos, neg) && !p0.t.Assigned(v) && s.v == v && Joins(p0, p1, v)
    requires Resolved(p0, p1, pos, neg, v, |pos|, 0) && ModelsExcept(m, p1, ex) && forall x :: x in ex ==> x in pos + neg
    requires EliminationRecords(recs, LitsOf(p0.ca, if s.neg then neg else pos), s)
    ensures AllNonempty(recs) && Models(Lift(m, recs), p0)
  {
    hide EliminationRecords;
    forall x | x in ex
      ensures x in p0.ca && HasVar(p0.ca[x].lits, v)
    {
      SplitMember(p0, v, pos, neg, x);
    }
    assert ex <= p0.ca.Keys;
    assert ModelsExcept(m, p0, ex) && PairsBefore(m, p0, pos, neg, v, |pos|, 0);
    AllPairs(m, p0, pos, neg, v, s);
    EliminationLifts(m, p0, v, pos, neg, recs, s);
  }

  lemma SplitMember(p0: Pre, v: nat, pos: seq<nat>, neg: seq<nat>, x: nat)
    requires SplitOn(p0, v, pos, neg) && x in pos + neg
    ensures Alive(p0.ca, x) && HasVar(p0.ca[x].lits, v)
  {
    if x in pos {
      var i :| 0 <= i < |pos| && pos[i] == x;
      SignPosition(p0.ca[pos[i]].lits, Lit(v, false));
    } else {
      var i :| 0 <= i < |neg| && neg[i] == x;
      SignPosition(p0.ca[neg[i]].lits, Lit(v, true));
    }
  }

  lemma AllPairs(m: Model, p0: Pre, pos: seq<nat>, neg: seq<nat>, v: nat, s: Lit)
    requires SplitOn(p0, v, pos, neg) && PairsBefore(m, p0, pos, neg, v, |pos|, 0)
    ensures PairsHold(m, LitsOf(p0.ca, if s.neg then neg else pos), LitsOf(p0.ca, if s.neg then pos else neg), v)
  {
    forall i, j | 0 <= i < |pos| && 0 <= j < |neg|
      ensures PairHolds(m, LitsOf(p0.ca, pos)[i], LitsOf(p0.ca, neg)[j], v)
      ensures PairHolds(m, LitsOf(p0.ca, neg)[j], LitsOf(p0.ca, pos)[i], v)
    {
      assert PairAt(m, p0, pos[i], neg[j], v);
      ClashSymmetric(p0.ca[pos[i]].lits, p0.ca[neg[j]].lits, v);
    }
  }

  // ---------- which variables are eliminated ----------

  /** An attempt to eliminate a variable: the state in which it is made, and its clauses there. */
  datatype Attempt = Attempt(state: Pre, pos: seq<nat>, neg: seq<nat>)

  ghost predicate AttemptOn(a: Attempt, v: nat) {
    SplitOn(a.state, v, a.pos, a.neg) && Distinct(a.pos) && Distinct(a.neg) && !a.state.t.Assigned(v)
  }

  /** The resolvents stay within the limits on their number and length. */
  ghost predicate Fits(a: Attempt, v: nat, grow: int, lim: int)
    requires AttemptOn(a, v)
  {
    Bounded(LitsOf(a.state.ca, a.pos), LitsOf(a.state.ca, a.neg), v, |a.pos| + |a.neg| + grow, lim)
  }

  /** What is to be said of variable v after its turn. */
  ghost predicate TurnDone(v: nat, a: Option<Attempt>, p: Pre, eliminated: seq<bool>, frozen: seq<bool>, useElim: bool, grow: int, lim: int)
    requires v < |eliminated| == |frozen|
  {
    match a
    case None => eliminated[v] || p.t.Assigned(v) || frozen[v] || !useElim
    case Some(a) => useElim && !frozen[v] && AttemptOn(a, v) && (Fits(a, v, grow, lim) ==> eliminated[v])
  }

  /** Only variables whose attempt was within the limits have been eliminated, and none came back. */
  ghost predicate OnlyTried(order: seq<nat>, tried: seq<Option<Attempt>>, eliminated0: seq<bool>, eliminated: seq<bool>, grow: int, lim: int) {
    && |eliminated| == |eliminated0| && |tried| == |order|
    && forall v :: 0 <= v < |eliminated| ==>
         if eliminated0[v] then eliminated[v]
         else eliminated[v] ==> exists i :: 0 <= i < |order| && Succeeded(v, order[i], tried[i], grow, lim)
  }

  /** The attempt was one on v, within the limits. */
  ghost predicate Succeeded(v: nat, u: nat, a: Option<Attempt>, grow: int, lim: int) {
    u == v && a.Some? && AttemptOn(a.value, v) && Fits(a.value, v, grow, lim)
  }

  lemma NothingTried(order: seq<nat>, eliminated: seq<bool>, grow: int, lim: int)
    ensures OnlyTried(order[..0], [], eliminated, eliminated, grow, lim)
  {
  }

  lemma OneMoreTried(order: seq<nat>, i: nat, tried: seq<Option<Attempt>>, a: Option<Attempt>,
                     eliminated0: seq<bool>, eliminated1: seq<bool>, eliminated: seq<bool>, grow: int, lim: int)
    requires i < |order| && OnlyTried(order[..i], tried, eliminated0, eliminated1, grow, lim) && order[i] < |eliminated1|
    requires eliminated == eliminated1 || (eliminated == eliminated1[order[i] := true] && Succeeded(order[i], order[i], a, grow, lim))
    ensures OnlyTried(order[..i + 1], tried + [a], eliminated0, eliminated, grow, lim)
  {
    hide Succeeded;
    var more, later := order[..i + 1], tried + [a];
    forall v | 0 <= v < |eliminated| && !eliminated0[v] && eliminated[v]
      ensures exists k :: 0 <= k < |more| && Succeeded(v, more[k], later[k], grow, lim)
    {
      if eliminated1[v] {
        var k :| 0 <= k < i && Succeeded(v, order[..i][k], tried[k], grow, lim);
        assert Succeeded(v, more[k], later[k], grow, lim);
      } else {
        assert Succeeded(v, more[i], later[i], grow, lim);
      }
    }
  }

  lemma TurnStays(v: nat, a: Option<Attempt>, p: Pre, q: Pre, eliminated: seq<bool>, eliminated': seq<bool>,
                  frozen: seq<bool>, useElim: bool, grow: int, lim: int)
    requires v < |eliminated| == |frozen| == |eliminated'| && TurnDone(v, a, p, eliminated, frozen, useElim, grow, lim)
    requires Continues(p.t, q.t) && (eliminated[v] ==> eliminated'[v])
    ensures TurnDone(v, a, q, eliminated', frozen, useElim, grow, lim)
  {
  }

  // ---------- asymmetric branching ----------

  method HasTrueLit(t: Trail, c: seq<Lit>) returns (r: bool)
    requires InRange(c, |t.assigns|)
    ensures r <==> HasTrue(t, c)
  {
    for i := 0 to |c|
      invariant forall k :: 0 <= k < i ==> !t.IsTrue(c[k])
    {
      if Value(t.assigns, c[i]) == LTrue {
        return true;
      }
    }
    return false;
  }

  /** t adds the negations of the literals of c that are neither of v nor false on t0; a model that
      satisfies t0 and none of those literals satisfies t. */
  ghost predicate NegatesSome(t0: Trail, t: Trail, c: seq<Lit>, v: nat, i: nat) {
    forall m: Model :: TrailHolds(m, t0) && !HoldsAmong(m, t0, c, v, i) ==> TrailHolds(m, t)
  }

  /** Some literal of c before i holds that is neither of v nor false on t0. */
  ghost predicate HoldsAmong(m: Model, t0: Trail, c: seq<Lit>, v: nat, i: nat) {
    exists k :: 0 <= k < i && k < |c| && c[k].v != v && !t0.IsFalse(c[k]) && Holds(m, c[k])
  }

  /** l is the last literal of c that is of v or false on t. */
  ghost predicate LastLeftOut(t: Trail, c: seq<Lit>, v: nat, l: Lit) {
    exists k :: 0 <= k < |c| && c[k] == l && LeftOut(t, c, v, k) && NoneLeftOut(t, c, v, k + 1, |c|)
  }

  ghost predicate LeftOut(t: Trail, c: seq<Lit>, v: nat, k: nat)
    requires k < |c|
  {
    c[k].v == v || t.IsFalse(c[k])
  }

  ghost predicate NoneLeftOut(t: Trail, c: seq<Lit>, v: nat, k: nat, i: nat) {
    forall j :: k <= j < i && j < |c| ==> !LeftOut(t, c, v, j)
  }

  /** The literal that asymmetric branching drops is the one of v exactly if no literal behind that
      one is false at level 0. */
  lemma DropsOwnLiteral(t: Trail, c: seq<Lit>, v: nat, l: Lit, i: nat)
    requires DistinctVars(c) && i < |c| && c[i].v == v && LastLeftOut(t, c, v, l)
    ensures l == c[i] <==> forall k :: i < k < |c| ==> !t.IsFalse(c[k])
  {
    var k :| 0 <= k < |c| && c[k] == l && LeftOut(t, c, v, k) && NoneLeftOut(t, c, v, k + 1, |c|);
    assert LeftOut(t, c, v, i);
    if l == c[i] {
      assert k == i;
      forall j | i < j < |c|
        ensures !t.IsFalse(c[j])
      {
        assert !LeftOut(t, c, v, j);
      }
    }
  }

  /** The literals of c before i are false on t, except that of v. */
  ghost predicate Negated(t: Trail, c: seq<Lit>, v: nat, i: nat) {
    forall k :: 0 <= k < i && k < |c| && c[k].v != v ==> t.IsFalse(c[k])
  }

  /** Assuming that c is false apart from v leads to no conflict: some trail says so, agrees with
      level 0 and leaves no clause unit or false. */
  ghost predicate ConflictFree(p: Pre, c: seq<Lit>, v: nat) {
    exists t: Trail :: Negated(t, c, v, |c|) && Fixpoint(p.ca, p.clauses, p.t, t)
  }

  /** t says no more than t0 and that the literals of c before i are false, except that of v. */
  ghost predicate OnlyNegates(t0: Trail, t: Trail, c: seq<Lit>, v: nat, i: nat) {
    && |t.assigns| == |t0.assigns|
    && forall l: Lit :: t.IsTrue(l) ==> t0.IsTrue(l) || exists k :: 0 <= k < i && k < |c| && c[k].v != v && c[k] == l.Neg()
  }

  lemma NoneConflictFree(p: Pre, t: Trail, u: Trail, c: seq<Lit>, v: nat)
    requires OnlyNegates(p.t, t, c, v, |c|) && Least(p.ca, p.clauses, t, u, true)
    ensures !ConflictFree(p, c, v)
  {
    forall w: Trail | Negated(w, c, v, |c|) && Keeps(p.t, w)
      ensures Keeps(t, w)
    {
    }
    assert forall w: Trail :: !Fixpoint(p.ca, p.clauses, t, w);
    forall w: Trail | Negated(w, c, v, |c|)
      ensures !Fixpoint(p.ca, p.clauses, p.t, w)
    {
      assert !Fixpoint(p.ca, p.clauses, t, w);
    }
  }

  lemma NegatedOne(t0: Trail, t: Trail, c: seq<Lit>, v: nat, i: nat)
    requires OnlyNegates(t0, t, c, v, i) && i < |c| && t.Sized(|t.assigns|)
    ensures OnlyNegates(t0, t, c, v, i + 1)
    ensures c[i].v != v && t.IsUndef(c[i]) ==> OnlyNegates(t0, t.Push(c[i].Neg(), None), c, v, i + 1)
  {
    if c[i].v != v && t.IsUndef(c[i]) {
      var u := t.Push(c[i].Neg(), None);
      forall l: Lit | u.IsTrue(l)
        ensures t0.IsTrue(l) || exists k :: 0 <= k < i + 1 && k < |c| && c[k].v != v && c[k] == l.Neg()
      {
        if t.IsTrue(l) {
        } else {
          assert c[i] == l.Neg();
        }
      }
    }
  }

  lemma StaysNegated(p: Pre, t: Trail, u: Trail, c: seq<Lit>, v: nat)
    requires Negated(t, c, v, |c|) && Continues(t, u) && Keeps(p.t, t) && Fixpoint(p.ca, p.clauses, t, u)
    ensures ConflictFree(p, c, v)
  {
    forall k | 0 <= k < |c| && c[k].v != v
      ensures u.IsFalse(c[k])
    {
      assert t.Assigned(c[k].v);
    }
    assert Negated(u, c, v, |c|);
  }

  /** Opens a level and assumes the negation of the literals of c that are not false, but of v.
      Returns also the last literal that was left out. */
  method NegateAllBut(t0: Trail, c: seq<Lit>, v: nat) returns (t: Trail, l: Lit)
    requires t0.Wf(|t0.assigns|) && InRange(c, |t0.assigns|) && DistinctVars(c) && !HasTrue(t0, c) && HasVar(c, v)
    ensures t.Wf(|t0.assigns|) && NegatesSome(t0, t, c, v, |c|) && |t.assigns| == |t0.assigns|
    ensures l in c && (l.v == v || t0.IsFalse(l)) && LastLeftOut(t0, c, v, l)
    ensures Negated(t, c, v, |c|) && OnlyNegates(t0, t, c, v, |c|) && Keeps(t0, t)
  {
    ghost var n := |t0.assigns|;
    hide NegatesSome, HasVar, DistinctVars, InRange, HasTrue, UntouchedFrom, NoneLeftOut, Negated, OnlyNegates, Keeps;
    NewLevelWf(t0, n);
    t := t0.NewLevel();
    NegatesNothing(t0, c, v);
    ghost var k := PlaceOf(c, v);
    ghost var last := 0;
    l := c[0];
    NoneNegated(t0, t, c, v);
    for i := 0 to |c|
      invariant t.Wf(n) && NegatesSome(t0, t, c, v, i) && |t.assigns| == n
      invariant UntouchedFrom(t0, t, c, i)
      invariant k < i ==> last < i && l == c[last] && LeftOut(t0, c, v, last) && NoneLeftOut(t0, c, v, last + 1, i)
      invariant Negated(t, c, v, i) && OnlyNegates(t0, t, c, v, i) && Keeps(t0, t)
    {
      StillThere(t0, t, c, i);
      NegatedNext(t, c, v, i);
      NegatedOne(t0, t, c, v, i);
      KeepsPush(t0, t, c[i].Neg());
      NoneLeftNext(t0, c, v, last, i);
      if c[i].v != v && Value(t.assigns, c[i]) != LFalse {
        NegateNext(t0, t, n, c, v, i);
        t := t.Push(c[i].Neg(), None);
      } else {
        NegateSkip(t0, t, c, v, i);
        l, last := c[i], i;
        NothingBehind(t0, c, v, i);
      }
    }
  }

  lemma NoneNegated(t0: Trail, t: Trail, c: seq<Lit>, v: nat)
    requires t == t0.NewLevel()
    ensures Negated(t, c, v, 0) && OnlyNegates(t0, t, c, v, 0) && Keeps(t0, t)
  {
    assert forall l: Lit :: t.IsTrue(l) <==> t0.IsTrue(l);
  }

  lemma KeepsPush(t0: Trail, t: Trail, l: Lit)
    requires Keeps(t0, t) && t.Sized(|t.assigns|)
    ensures t.IsUndef(l) ==> Keeps(t0, t.Push(l, None))
  {
  }

  lemma NegatedNext(t: Trail, c: seq<Lit>, v: nat, i: nat)
    requires Negated(t, c, v, i) && i < |c| && t.Sized(|t.assigns|)
    ensures c[i].v == v || t.IsFalse(c[i]) ==> Negated(t, c, v, i + 1)
    ensures t.IsUndef(c[i]) ==> Negated(t.Push(c[i].Neg(), None), c, v, i + 1)
  {
  }

  lemma NoneLeftNext(t: Trail, c: seq<Lit>, v: nat, last: nat, i: nat)
    requires i < |c|
    ensures NoneLeftOut(t, c, v, last + 1, i) && !LeftOut(t, c, v, i) ==> NoneLeftOut(t, c, v, last + 1, i + 1)
  {
  }

  lemma NothingBehind(t: Trail, c: seq<Lit>, v: nat, i: nat)
    ensures NoneLeftOut(t, c, v, i + 1, i + 1)
  {
  }

  /** The variables of the literals from i on have the values that they had on t0. */
  ghost predicate UntouchedFrom(t0: Trail, t: Trail, c: seq<Lit>, i: nat) {
    |t.assigns| == |t0.assigns| && forall k :: i <= k < |c| ==> c[k].v < |t.assigns| && t.assigns[c[k].v] == t0.assigns[c[k].v]
  }

  lemma PlaceOf(c: seq<Lit>, v: nat) returns (k: nat)
    requires HasVar(c, v)
    ensures k < |c| && c[k].v == v
  {
    k :| 0 <= k < |c| && c[k].v == v;
  }

  /** What is known of literal i when its turn comes, and that pushing it changes no later one. */
  lemma StillThere(t0: Trail, t: Trail, c: seq<Lit>, i: nat)
    requires UntouchedFrom(t0, t, c, i) && i < |c| && InRange(c, |t0.assigns|) && DistinctVars(c) && !HasTrue(t0, c)
    requires t.Wf(|t0.assigns|)
    ensures c[i].v < |t.assigns| && c[i] in c && !t.IsTrue(c[i]) && (t.IsFalse(c[i]) <==> t0.IsFalse(c[i]))
    ensures UntouchedFrom(t0, t, c, i + 1)
    ensures t.IsUndef(c[i]) ==> UntouchedFrom(t0, t.Push(c[i].Neg(), None), c, i + 1)
  {
    assert c[i] in c && !t0.IsTrue(c[i]);
  }

  lemma NegatesNothing(t: Trail, c: seq<Lit>, v: nat)
    requires InRange(c, |t.assigns|)
    ensures NegatesSome(t, t.NewLevel(), c, v, 0) && UntouchedFrom(t, t.NewLevel(), c, 0)
  {
    forall m: Model | TrailHolds(m, t)
      ensures TrailHolds(m, t.NewLevel())
    {
      forall u: nat | t.NewLevel().Assigned(u)
        ensures Agrees(m, t.NewLevel(), u)
      {
        assert t.Assigned(u) && Agrees(m, t, u);
      }
    }
  }

  lemma NegateSkip(t0: Trail, t: Trail, c: seq<Lit>, v: nat, i: nat)
    requires NegatesSome(t0, t, c, v, i)
    ensures NegatesSome(t0, t, c, v, i + 1)
  {
    forall m: Model
      ensures HoldsAmong(m, t0, c, v, i) ==> HoldsAmong(m, t0, c, v, i + 1)
    {
      if HoldsAmong(m, t0, c, v, i) {
        var k :| 0 <= k < i && k < |c| && c[k].v != v && !t0.IsFalse(c[k]) && Holds(m, c[k]);
        assert 0 <= k < i + 1;
      }
    }
  }

  lemma NegateNext(t0: Trail, t: Trail, n: nat, c: seq<Lit>, v: nat, i: nat)
    requires t.Wf(n) && i < |c| && c[i].v < n && t.IsUndef(c[i]) && c[i].v != v && !t0.IsFalse(c[i])
    requires NegatesSome(t0, t, c, v, i)
    ensures t.Push(c[i].Neg(), None).Wf(n) && NegatesSome(t0, t.Push(c[i].Neg(), None), c, v, i + 1)
  {
    PushWf(t, n, c[i].Neg(), None);
    NegateSkip(t0, t, c, v, i);
    forall m: Model | TrailHolds(m, t0) && !HoldsAmong(m, t0, c, v, i + 1)
      ensures TrailHolds(m, t.Push(c[i].Neg(), None))
    {
      PushHolds(m, t, n, c[i].Neg(), None);
      if Holds(m, c[i]) {
        AmongAt(m, t0, c, v, i);
      }
    }
  }

  lemma AmongAt(m: Model, t0: Trail, c: seq<Lit>, v: nat, i: nat)
    requires i < |c| && c[i].v != v && !t0.IsFalse(c[i]) && Holds(m, c[i])
    ensures HoldsAmong(m, t0, c, v, i + 1)
  {
  }

  /** What asymmetric branching on v does to clause cr: a literal goes exactly if the clause is alive
      and not satisfied and the negation of the rest leads to a conflict. */
  ghost predicate Branched(p: Pre, q: Pre, cr: nat, v: nat, dropped: Option<Lit>) {
    match dropped
    case None => q == p && (Alive(p.ca, cr) ==> HasTrue(p.t, p.ca[cr].lits) || ConflictFree(p, p.ca[cr].lits, v))
    case Some(l) =>
      && Alive(p.ca, cr) && !HasTrue(p.t, p.ca[cr].lits) && !ConflictFree(p, p.ca[cr].lits, v)
      && LastLeftOut(p.t, p.ca[cr].lits, v, l) && Strengthened(p, q, cr, l)
  }

  /** The state before and after a turn, and what was taken out. */
  datatype Branch = Branch(before: Pre, dropped: Option<Lit>, after: Pre)

  function Current(p: Pre, turns: seq<Branch>): Pre {
    if turns == [] then p else turns[|turns| - 1].after
  }

  /** The i-th turn treats the i-th clause that the list of v has by then. */
  ghost predicate Chained(p: Pre, turns: seq<Branch>, v: nat) {
    forall i :: 0 <= i < |turns| ==>
      && turns[i].before == Current(p, turns[..i]) && v < |turns[i].before.occurs| && i < |turns[i].before.occurs[v]|
      && Branched(turns[i].before, turns[i].after, turns[i].before.occurs[v][i], v, turns[i].dropped)
  }

  /** All of the list of v, cleaned, has had its turn. */
  ghost predicate Branching(p0: Pre, turns: seq<Branch>, v: nat) {
    exists p: Pre ::
      && p == p0.(occurs := p.occurs, dirty := p.dirty) && v < |p.occurs|
      && (forall i :: 0 <= i < |p.occurs[v]| ==> Alive(p.ca, p.occurs[v][i]))
      && Chained(p, turns, v) && v < |Current(p, turns).occurs| && |Current(p, turns).occurs[v]| <= |turns|
  }

  lemma NoTurns(p: Pre, v: nat)
    ensures Chained(p, [], v) && Current(p, []) == p
  {
  }

  lemma OneMoreTurn(p: Pre, turns: seq<Branch>, v: nat, before: Pre, after: Pre, dropped: Option<Lit>)
    requires Chained(p, turns, v) && before == Current(p, turns) && v < |before.occurs| && |turns| < |before.occurs[v]|
    requires Branched(before, after, before.occurs[v][|turns|], v, dropped)
    ensures var more := turns + [Branch(before, dropped, after)]; Chained(p, more, v) && Current(p, more) == after
  {
    hide Branched;
    var more := turns + [Branch(before, dropped, after)];
    assert more[..|turns|] == turns;
    forall i | 0 <= i < |turns|
      ensures more[..i] == turns[..i] && more[i] == turns[i]
    {
    }
  }

  /** A conflict shows that the clause holds without l. */
  lemma AsymmSound(p: Pre, cr: nat, c: seq<Lit>, v: nat, t: Trail, t': Trail, l: Lit)
    requires Alive(p.ca, cr) && c == p.ca[cr].lits && DistinctVars(c) && l in c && (l.v == v || p.t.IsFalse(l))
    requires NegatesSome(p.t, t, c, v, |c|) && Sound(p.ca, t, t', true)
    ensures forall m: Model :: Models(m, p) ==> SatClause(m, RemoveFirst(c, l))
  {
    RemoveFirstVars(c, l);
    forall m: Model | Models(m, p)
      ensures SatClause(m, RemoveFirst(c, l))
    {
      assert HoldsAmong(m, p.t, c, v, |c|);
      var k :| 0 <= k < |c| && c[k].v != v && !p.t.IsFalse(c[k]) && Holds(m, c[k]);
      assert c[k] in c && c[k] != l;
      SatClauseOf(m, RemoveFirst(c, l), c[k]);
    }
  }

  lemma AsymmStep(p: Pre, cr: nat, l: Lit, q: Pre, good: bool)
    requires Alive(p.ca, cr) && DistinctVars(p.ca[cr].lits) && Replaces(p, cr, RemoveFirst(p.ca[cr].lits, l), q, good)
    requires forall m: Model :: Models(m, p) ==> SatClause(m, RemoveFirst(p.ca[cr].lits, l))
    ensures if good then SameModels(p, q) else Refuted(p)
  {
    var d := RemoveFirst(p.ca[cr].lits, l);
    RemoveFirstVars(p.ca[cr].lits, l);
    forall m: Model
      ensures Models(m, p) <==> ModelsBut(m, p, cr) && SatClause(m, d)
    {
      SplitModels(m, p, cr);
      if SatClause(m, d) {
        assert forall i :: 0 <= i < |d| ==> d[i] in d && d[i] in p.ca[cr].lits;
        SatSubset(m, d, p.ca[cr].lits);
      }
    }
  }

  lemma ShorterList(p: Pre, cr: nat, l: Lit, v: nat, q: Pre)
    requires PreOk(p) && Alive(p.ca, cr)
    requires Strengthened(p, q, cr, l)
    ensures v < |p.occurs| ==> v < |q.occurs| && |q.occurs[v]| <= |p.occurs[v]|
    ensures v < |p.occurs| ==> forall x :: x in q.occurs[v] ==> x in p.occurs[v]
  {
    PreClause(p, cr);
    if v < |p.occurs| && l.v < |p.occurs| {
      PreList(p, l.v);
      RemoveFirstExact(p.occurs[l.v], cr);
    }
  }

  lemma LookedReduces(p: Pre, q: Pre)
    requires q == p.(occurs := q.occurs, dirty := q.dirty)
    ensures Reduces(p, q) && SameModels(p, q)
  {
  }

  // ---------- the start, clauses and models ----------

  function FreshPre(n: nat): Pre {
    Pre(map[], 1, seq(n, _ => []), seq(n, _ => false), [],
        Trail([], [], seq(n, _ => LUndef), seq(n, _ => 0), seq(n, _ => None), seq(n, _ => 0)))
  }

  lemma EmptyPre(n: nat)
    ensures PreOk(FreshPre(n)) && QueueOk(FreshPre(n), [], Lit(0, false))
    ensures StackOk(FreshPre(n), seq(n, _ => false), [], []) && Faithful(FreshPre(n), {}, [], false)
  {
  }

  lemma MoreUnsat(original: set<seq<Lit>>, ps: seq<Lit>)
    requires Unsat(original)
    ensures Unsat(original + {ps})
  {
    forall m: Model
      ensures !SatAll(m, original + {ps})
    {
      assert !SatAll(m, original);
    }
  }

  lemma GainsTrail(p: Pre, q: Pre, ps: seq<Lit>)
    requires Gains(p, q, ps)
    ensures |q.t.assigns| == |p.t.assigns| && |p.t.lits| <= |q.t.lits|
  {
  }

  lemma AddedFaithful(p: Pre, q: Pre, ps: seq<Lit>, eliminated: seq<bool>, elimclauses: seq<nat>, records: seq<Record>,
                      original: set<seq<Lit>>, lossy: bool, good: bool)
    requires StackOk(p, eliminated, elimclauses, records) && Faithful(p, original, records, lossy)
    requires Gains(p, q, ps) && Adds(p, ps, q, good) && AvoidsEliminated(ps, eliminated)
    ensures good ==> StackOk(q, eliminated, elimclauses, records) && Faithful(q, original + {ps}, records, lossy)
    ensures !good ==> Unsat(original + {ps})
  {
    assert ps in original + {ps};
    forall m: Model
      ensures SatAll(m, original + {ps}) <==> SatAll(m, original) && SatClause(m, ps)
    {
      assert forall c :: c in original ==> c in original + {ps};
    }
    if good {
      GainedAvoids(p, q, ps, eliminated);
      forall m: Model | Models(m, q) && !lossy
        ensures SatAll(Lift(m, records), original + {ps})
      {
        LiftKeepsClause(m, records, ps, eliminated);
      }
    }
  }

  lemma GainedAvoids(p: Pre, q: Pre, ps: seq<Lit>, eliminated: seq<bool>)
    requires NoneEliminated(p, eliminated) && Gains(p, q, ps) && AvoidsEliminated(ps, eliminated)
    ensures NoneEliminated(q, eliminated)
  {
    forall x | Alive(q.ca, x)
      ensures AvoidsEliminated(q.ca[x].lits, eliminated)
    {
      if x in p.ca {
        assert AvoidsEliminated(p.ca[x].lits, eliminated);
      } else {
        forall i | 0 <= i < |q.ca[x].lits|
          ensures q.ca[x].lits[i].v < |eliminated| && !eliminated[q.ca[x].lits[i].v]
        {
          assert q.ca[x].lits[i] in ps;
        }
      }
    }
  }

  /** The backward pass leaves clauses over remaining variables alone. */
  lemma LiftKeepsClause(m: Model, records: seq<Record>, ps: seq<Lit>, eliminated: seq<bool>)
    requires AllNonempty(records) && AvoidsEliminated(ps, eliminated) && SatClause(m, ps)
    requires forall i :: 0 <= i < |records| ==> records[i][0].v < |eliminated| && eliminated[records[i][0].v]
    ensures SatClause(Lift(m, records), ps)
  {
    var k :| 0 <= k < |ps| && Holds(m, ps[k]);
    LiftKeeps(m, records, ps[k].v);
    SatClauseOf(Lift(m, records), ps, ps[k]);
  }

  /** The stored pass leaves remaining variables alone. */
  lemma {:induction false} ExtendKeeps(model: seq<LBool>, records: seq<Record>, eliminated: seq<bool>)
    requires RecordsFit(records, |model|) && |model| == |eliminated|
    requires forall i :: 0 <= i < |records| ==> records[i][0].v < |eliminated| && eliminated[records[i][0].v]
    ensures forall v :: 0 <= v < |model| && !eliminated[v] ==> LiftValues(model, records)[v] == model[v]
    decreases |records|
  {
    if records != [] {
      var last := |records| - 1;
      assert InBounds(records[last], |model|);
      ExtendKeeps(ApplyValues(model, records[last]), records[..last], eliminated);
    }
  }
}
