/** The clause store of the preprocessor as a value: clauses, occurrence lists with lazy
    deletion, and the level 0 trail; and what each change does to the formula. */
module Occurrences {
  import opened Wrappers
  import opened Cnf
  import opened TrailState
  import opened Cuts
  import opened SearchSteps
  import opened Growth
  import opened Subsumption

  datatype Cls = Cls(lits: seq<Lit>, deleted: bool, abs: bv32)

  type Store = map<nat, Cls>

  /** occurs lists the clauses of each variable; a list may name deleted clauses once it is
      dirty. t has decision level 0. */
  datatype Pre = Pre(ca: Store, next: nat, occurs: seq<seq<nat>>, dirty: seq<bool>, clauses: seq<nat>, t: Trail)

  ghost predicate Alive(ca: Store, cr: nat) {
    cr in ca && !ca[cr].deleted
  }

  ghost predicate Fine(c: Cls, n: nat) {
    && |c.lits| >= 2 && DistinctVars(c.lits) && c.abs == Abstraction(c.lits)
    && forall i :: 0 <= i < |c.lits| ==> c.lits[i].v < n
  }

  /** The list of v names clauses with v, each once, deleted ones only if it is dirty. */
  ghost predicate OccList(ca: Store, list: seq<nat>, v: nat, dirty: bool) {
    && Distinct(list)
    && forall i :: 0 <= i < |list| ==> OccEntry(ca, list[i], v, dirty)
  }

  ghost predicate OccEntry(ca: Store, cr: nat, v: nat, dirty: bool) {
    cr in ca && (Alive(ca, cr) ==> HasVar(ca[cr].lits, v)) && (dirty || Alive(ca, cr))
  }

  ghost predicate Indexed(p: Pre, cr: nat)
    requires cr in p.ca
  {
    forall i :: 0 <= i < |p.ca[cr].lits| && p.ca[cr].lits[i].v < |p.occurs| ==> cr in p.occurs[p.ca[cr].lits[i].v]
  }

  ghost predicate PreOk(p: Pre) {
    var n := |p.t.assigns|;
    && p.t.Wf(n) && p.t.lim == [] && |p.occurs| == |p.dirty| == n
    && (forall cr :: cr in p.ca ==> 0 < cr < p.next)
    && (forall cr :: Alive(p.ca, cr) ==> Fine(p.ca[cr], n) && Indexed(p, cr) && cr in p.clauses)
    && (forall v :: 0 <= v < n ==> OccList(p.ca, p.occurs[v], v, p.dirty[v]))
    && (forall i :: 0 <= i < |p.clauses| ==> p.clauses[i] in p.ca)
  }

  // ---------- the formula ----------

  ghost predicate TrailHolds(m: Model, t: Trail) {
    forall v: nat :: t.Assigned(v) ==> Agrees(m, t, v)
  }

  ghost predicate ClausesHold(m: Model, ca: Store) {
    forall cr :: Alive(ca, cr) ==> SatClause(m, ca[cr].lits)
  }

  /** m satisfies the live clauses and the level 0 literals. */
  ghost predicate Models(m: Model, p: Pre) {
    ClausesHold(m, p.ca) && TrailHolds(m, p.t)
  }

  /** p and q have the same models. */
  ghost predicate SameModels(p: Pre, q: Pre) {
    forall m: Model :: Models(m, p) <==> Models(m, q)
  }

  ghost predicate Refuted(p: Pre) {
    forall m: Model :: !Models(m, p)
  }

  lemma TrueHolds(m: Model, t: Trail, l: Lit)
    requires TrailHolds(m, t)
    ensures t.IsTrue(l) ==> Holds(m, l)
    ensures t.IsFalse(l) ==> !Holds(m, l)
  {
    if t.IsTrue(l) {
      assert t.Assigned(l.v) && Agrees(m, t, l.v);
      TrueMeansAgree(m, t, l);
    }
    if t.IsFalse(l) {
      assert t.Assigned(l.v) && Agrees(m, t, l.v);
      FalseMeansDisagree(m, t, l);
    }
  }

  /** Enqueueing a literal adds exactly that literal to the formula. */
  lemma PushHolds(m: Model, t: Trail, n: nat, l: Lit, from: Option<nat>)
    requires t.Wf(n) && l.v < n && t.IsUndef(l)
    ensures TrailHolds(m, t.Push(l, from)) <==> TrailHolds(m, t) && Holds(m, l)
  {
    var u := t.Push(l, from);
    assert u.TrueLit(l.v) == l && u.Assigned(l.v);
    if TrailHolds(m, u) {
      assert Agrees(m, u, l.v);
      forall v: nat | t.Assigned(v)
        ensures Agrees(m, t, v)
      {
        assert u.Assigned(v) && Agrees(m, u, v);
      }
    }
    if TrailHolds(m, t) && Holds(m, l) {
      forall v: nat | u.Assigned(v)
        ensures Agrees(m, u, v)
      {
        assert v != l.v ==> t.Assigned(v) && Agrees(m, t, v);
      }
    }
  }

  // ---------- removing an element ----------

  function RemoveFirst<T(==)>(s: seq<T>, x: T): seq<T> {
    if s == [] then [] else if s[0] == x then s[1..] else [s[0]] + RemoveFirst(s[1..], x)
  }

  ghost predicate Distinct<T>(s: seq<T>) {
    forall i, j :: 0 <= i < j < |s| ==> s[i] != s[j]
  }

  lemma {:induction false} RemoveFirstMember<T>(s: seq<T>, x: T, y: T)
    requires Distinct(s)
    ensures y in RemoveFirst(s, x) <==> y in s && y != x
  {
    if s != [] {
      RemoveFirstMember(s[1..], x, y);
      assert s == [s[0]] + s[1..];
    }
  }

  lemma {:induction false} RemoveFirstExact<T>(s: seq<T>, x: T)
    requires Distinct(s)
    ensures forall y :: y in RemoveFirst(s, x) <==> y in s && y != x
    ensures Distinct(RemoveFirst(s, x))
    ensures |RemoveFirst(s, x)| == if x in s then |s| - 1 else |s|
  {
    forall y
      ensures y in RemoveFirst(s, x) <==> y in s && y != x
    {
      RemoveFirstMember(s, x, y);
    }
    if s != [] {
      RemoveFirstExact(s[1..], x);
      assert s == [s[0]] + s[1..];
      var r := RemoveFirst(s[1..], x);
      forall i | 0 <= i < |r|
        ensures r[i] != s[0]
      {
        RemoveFirstMember(s[1..], x, r[i]);
        assert r[i] in s[1..];
      }
    }
  }

  lemma {:induction false} RemoveFirstVars(s: seq<Lit>, x: Lit)
    requires DistinctVars(s)
    ensures DistinctVars(RemoveFirst(s, x)) && Without(s, RemoveFirst(s, x), x)
  {
    if s != [] {
      RemoveFirstVars(s[1..], x);
      assert s == [s[0]] + s[1..];
      var r := RemoveFirst(s[1..], x);
      forall i | 0 <= i < |r|
        ensures r[i].v != s[0].v
      {
        assert r[i] in r && r[i] in s[1..];
        var k :| 0 <= k < |s[1..]| && s[1..][k] == r[i];
        assert s[k + 1] == r[i];
      }
    }
  }

  // ---------- deleting ----------

  function Smudge(dirty: seq<bool>, c: seq<Lit>): (r: seq<bool>)
    ensures |r| == |dirty|
  {
    if c == [] then dirty
    else
      var before := Smudge(dirty, c[..|c| - 1]);
      if c[|c| - 1].v < |before| then before[c[|c| - 1].v := true] else before
  }

  lemma {:induction false} SmudgeExact(dirty: seq<bool>, c: seq<Lit>, v: nat)
    requires v < |dirty|
    ensures Smudge(dirty, c)[v] <==> dirty[v] || HasVar(c, v)
  {
    if c != [] {
      var last := |c| - 1;
      SmudgeExact(dirty, c[..last], v);
      assert c == c[..last] + [c[last]];
      HasVarAppend(c[..last], c[last], v);
    }
  }

  /** removeClause: the clause is marked deleted and its lists become dirty. */
  function Deleting(p: Pre, cr: nat): Pre
    requires cr in p.ca
  {
    p.(ca := p.ca[cr := p.ca[cr].(deleted := true)], dirty := Smudge(p.dirty, p.ca[cr].lits))
  }

  lemma DeletingOk(p: Pre, cr: nat)
    requires PreOk(p) && Alive(p.ca, cr)
    ensures PreOk(Deleting(p, cr))
  {
    var q := Deleting(p, cr);
    forall x | Alive(q.ca, x)
      ensures Fine(q.ca[x], |p.t.assigns|) && Indexed(q, x) && x in q.clauses
    {
      assert Alive(p.ca, x) && Fine(p.ca[x], |p.t.assigns|) && Indexed(p, x);
    }
    forall v | 0 <= v < |p.t.assigns|
      ensures OccList(q.ca, q.occurs[v], v, q.dirty[v])
    {
      assert OccList(p.ca, p.occurs[v], v, p.dirty[v]);
      SmudgeExact(p.dirty, p.ca[cr].lits, v);
      forall i | 0 <= i < |q.occurs[v]|
        ensures OccEntry(q.ca, q.occurs[v][i], v, q.dirty[v])
      {
        assert OccEntry(p.ca, p.occurs[v][i], v, p.dirty[v]);
      }
    }
  }

  /** A clause that follows from what stays may go. */
  lemma DeletingModels(p: Pre, cr: nat)
    requires Alive(p.ca, cr)
    requires forall m: Model :: Models(m, Deleting(p, cr)) ==> SatClause(m, p.ca[cr].lits)
    ensures SameModels(p, Deleting(p, cr))
  {
    var q := Deleting(p, cr);
    forall m: Model
      ensures Models(m, p) <==> Models(m, q)
    {
      if Models(m, q) {
        forall x | Alive(p.ca, x)
          ensures SatClause(m, p.ca[x].lits)
        {
          assert x != cr ==> Alive(q.ca, x);
        }
      }
      if Models(m, p) {
        forall x | Alive(q.ca, x)
          ensures SatClause(m, q.ca[x].lits)
        {
          assert Alive(p.ca, x);
        }
      }
    }
  }

  // ---------- strengthening ----------

  /** strengthenClause on a clause that keeps at least two literals: the literal goes, and the
      clause leaves the list of its variable at once. */
  function Shortened(p: Pre, cr: nat, l: Lit): Pre
    requires cr in p.ca && l.v < |p.occurs|
  {
    var d := RemoveFirst(p.ca[cr].lits, l);
    p.(ca := p.ca[cr := Cls(d, false, Abstraction(d))],
       occurs := p.occurs[l.v := RemoveFirst(p.occurs[l.v], cr)])
  }

  lemma ShortenedOk(p: Pre, cr: nat, l: Lit)
    requires PreOk(p) && Alive(p.ca, cr) && l in p.ca[cr].lits && |p.ca[cr].lits| > 2
    ensures l.v < |p.occurs| && PreOk(Shortened(p, cr, l))
    ensures |RemoveFirst(p.ca[cr].lits, l)| == |p.ca[cr].lits| - 1
  {
    var n := |p.t.assigns|;
    assert Fine(p.ca[cr], n);
    RemoveFirstVars(p.ca[cr].lits, l);
    LitsDistinct(p.ca[cr].lits);
    RemoveFirstExact(p.ca[cr].lits, l);
    var q := Shortened(p, cr, l);
    forall x | Alive(q.ca, x)
      ensures Fine(q.ca[x], n) && Indexed(q, x) && x in q.clauses
    {
      ShortenedClause(p, cr, l, x);
    }
    forall v | 0 <= v < n
      ensures OccList(q.ca, q.occurs[v], v, q.dirty[v])
    {
      ShortenedList(p, cr, l, v);
    }
  }

  lemma LitsDistinct(c: seq<Lit>)
    requires DistinctVars(c)
    ensures Distinct(c)
  {
  }

  lemma ShortenedClause(p: Pre, cr: nat, l: Lit, x: nat)
    requires PreOk(p) && Alive(p.ca, cr) && l in p.ca[cr].lits && |p.ca[cr].lits| > 2 && l.v < |p.occurs| && Alive(p.ca, x)
    ensures var q := Shortened(p, cr, l); Alive(q.ca, x) && Fine(q.ca[x], |p.t.assigns|) && Indexed(q, x) && x in q.clauses
  {
    var n := |p.t.assigns|;
    hide OccList;
    assert Fine(p.ca[cr], n) && Fine(p.ca[x], n) && Indexed(p, x);
    var c := p.ca[cr].lits;
    var q := Shortened(p, cr, l);
    RemoveFirstVars(c, l);
    LitsDistinct(c);
    RemoveFirstExact(c, l);
    forall i | 0 <= i < |q.ca[x].lits|
      ensures q.ca[x].lits[i].v < n && x in q.occurs[q.ca[x].lits[i].v]
    {
      var y := q.ca[x].lits[i];
      assert y in q.ca[x].lits && y in p.ca[x].lits;
      var k :| 0 <= k < |p.ca[x].lits| && p.ca[x].lits[k] == y;
      assert x in p.occurs[y.v];
      if x == cr {
        OnlyOne(c, y, l);
      } else {
        KeptInList(p, cr, l.v, x);
      }
    }
  }

  lemma KeptInList(p: Pre, cr: nat, v: nat, x: nat)
    requires PreOk(p) && v < |p.occurs| && x != cr
    ensures x in p.occurs[v] <==> x in RemoveFirst(p.occurs[v], cr)
  {
    assert OccList(p.ca, p.occurs[v], v, p.dirty[v]);
    RemoveFirstExact(p.occurs[v], cr);
  }

  lemma OnlyOne(c: seq<Lit>, x: Lit, l: Lit)
    requires DistinctVars(c) && x in RemoveFirst(c, l) && l in c
    ensures x in c && x.v != l.v
  {
    RemoveFirstVars(c, l);
    var i :| 0 <= i < |c| && c[i] == x;
    var j :| 0 <= j < |c| && c[j] == l;
    assert i < j || j < i;
  }

  lemma ShortenedList(p: Pre, cr: nat, l: Lit, v: nat)
    requires PreOk(p) && Alive(p.ca, cr) && l in p.ca[cr].lits && l.v < |p.occurs| && v < |p.occurs|
    ensures var q := Shortened(p, cr, l); OccList(q.ca, q.occurs[v], v, q.dirty[v])
  {
    var q := Shortened(p, cr, l);
    assert OccList(p.ca, p.occurs[v], v, p.dirty[v]);
    RemoveFirstExact(p.occurs[v], cr);
    assert Fine(p.ca[cr], |p.t.assigns|);
    forall i | 0 <= i < |q.occurs[v]|
      ensures OccEntry(q.ca, q.occurs[v][i], v, q.dirty[v])
    {
      var x := q.occurs[v][i];
      assert x in p.occurs[v];
      var k :| 0 <= k < |p.occurs[v]| && p.occurs[v][k] == x;
      assert OccEntry(p.ca, p.occurs[v][k], v, p.dirty[v]);
      if x == cr {
        StillHasVar(p.ca[cr].lits, l, v);
      }
    }
  }

  lemma StillHasVar(c: seq<Lit>, l: Lit, v: nat)
    requires DistinctVars(c) && HasVar(c, v) && v != l.v
    ensures HasVar(RemoveFirst(c, l), v)
  {
    RemoveFirstVars(c, l);
    var j :| 0 <= j < |c| && c[j].v == v;
    assert c[j] in RemoveFirst(c, l);
    var k :| 0 <= k < |RemoveFirst(c, l)| && RemoveFirst(c, l)[k] == c[j];
  }

  lemma OthersSame(m: Model, p: Pre, cr: nat, l: Lit)
    requires Alive(p.ca, cr) && l.v < |p.occurs|
    ensures ModelsBut(m, p, cr) <==> ModelsBut(m, Shortened(p, cr, l), cr)
  {
    var q := Shortened(p, cr, l);
    assert forall x :: x != cr ==> (Alive(p.ca, x) <==> Alive(q.ca, x));
    if ModelsBut(m, q, cr) {
      forall x | Alive(p.ca, x) && x != cr
        ensures SatClause(m, p.ca[x].lits)
      {
        assert Alive(q.ca, x) && q.ca[x].lits == p.ca[x].lits;
      }
    }
  }

  /** m satisfies everything but perhaps the clause cr. */
  ghost predicate ModelsBut(m: Model, p: Pre, cr: nat) {
    (forall x :: Alive(p.ca, x) && x != cr ==> SatClause(m, p.ca[x].lits)) && TrailHolds(m, p.t)
  }

  lemma SplitModels(m: Model, p: Pre, cr: nat)
    requires Alive(p.ca, cr)
    ensures Models(m, p) <==> ModelsBut(m, p, cr) && SatClause(m, p.ca[cr].lits)
  {
  }

  // ---------- units ----------

  lemma EnqueuedOk(p: Pre, l: Lit)
    requires PreOk(p) && p.t.IsUndef(l)
    ensures PreOk(p.(t := p.t.Push(l, None)))
  {
    var q := p.(t := p.t.Push(l, None));
    PushWf(p.t, |p.t.assigns|, l, None);
    assert forall cr :: Alive(p.ca, cr) && Indexed(p, cr) ==> Indexed(q, cr);
  }

  /** A larger trail over the same clauses. */
  lemma TrailOkAgain(p: Pre, t: Trail)
    requires PreOk(p) && t.Wf(|p.t.assigns|) && t.lim == [] && |t.assigns| == |p.t.assigns|
    ensures PreOk(p.(t := t))
  {
    assert forall cr :: Alive(p.ca, cr) && Indexed(p, cr) ==> Indexed(p.(t := t), cr);
  }

  // ---------- storing ----------

  /** A new clause at the next reference, entered in the lists of its variables. */
  function StoringClause(p: Pre, c: seq<Lit>): Pre {
    p.(ca := p.ca[p.next := Cls(c, false, Abstraction(c))], next := p.next + ClauseSize(c),
       occurs := Entered(p.occurs, p.next, c), clauses := p.clauses + [p.next])
  }

  function ClauseSize(c: seq<Lit>): (w: nat)
    ensures w > 0
  {
    4 + |c|
  }

  function Entered(occurs: seq<seq<nat>>, cr: nat, c: seq<Lit>): (r: seq<seq<nat>>)
    ensures |r| == |occurs|
  {
    if c == [] then occurs
    else
      var before := Entered(occurs, cr, c[..|c| - 1]);
      var v := c[|c| - 1].v;
      if v < |before| then before[v := before[v] + [cr]] else before
  }

  lemma HasVarAppend(c: seq<Lit>, l: Lit, v: nat)
    ensures HasVar(c + [l], v) <==> HasVar(c, v) || l.v == v
  {
    if HasVar(c, v) {
      var j :| 0 <= j < |c| && c[j].v == v;
      assert (c + [l])[j].v == v;
    }
    assert (c + [l])[|c|] == l;
  }

  lemma {:induction false} EnteredExact(occurs: seq<seq<nat>>, cr: nat, c: seq<Lit>, v: nat)
    requires v < |occurs| && DistinctVars(c)
    ensures Entered(occurs, cr, c)[v] == if HasVar(c, v) then occurs[v] + [cr] else occurs[v]
  {
    if c != [] {
      var last := |c| - 1;
      EnteredExact(occurs, cr, c[..last], v);
      HasVarAppend(c[..last], c[last], v);
      assert c == c[..last] + [c[last]];
      if HasVar(c[..last], v) {
        var j :| 0 <= j < last && c[..last][j].v == v;
        assert c[j].v == v && c[last].v != v;
      }
    }
  }

  lemma StoringOk(p: Pre, c: seq<Lit>)
    requires PreOk(p) && |c| >= 2 && DistinctVars(c) && p.next > 0 && forall i :: 0 <= i < |c| ==> c[i].v < |p.t.assigns|
    ensures PreOk(StoringClause(p, c)) && p.next !in p.ca
  {
    var q := StoringClause(p, c);
    var n := |p.t.assigns|;
    hide Entered, OccList;
    forall x | Alive(q.ca, x)
      ensures Fine(q.ca[x], n) && Indexed(q, x) && x in q.clauses
    {
      StoredIndexed(p, c, x);
    }
    forall v | 0 <= v < n
      ensures OccList(q.ca, q.occurs[v], v, q.dirty[v])
    {
      StoredList(p, c, v);
    }
    forall i | 0 <= i < |q.clauses|
      ensures q.clauses[i] in q.ca
    {
      assert i < |p.clauses| ==> p.clauses[i] in p.ca;
    }
  }

  lemma StoredIndexed(p: Pre, c: seq<Lit>, x: nat)
    requires PreOk(p) && |c| >= 2 && DistinctVars(c) && forall i :: 0 <= i < |c| ==> c[i].v < |p.t.assigns|
    requires p.next !in p.ca && (x == p.next || Alive(p.ca, x))
    ensures var q := StoringClause(p, c); Fine(q.ca[x], |p.t.assigns|) && Indexed(q, x) && x in q.clauses
  {
    hide Entered, OccList;
    var q := StoringClause(p, c);
    assert x != p.next ==> Fine(p.ca[x], |p.t.assigns|) && Indexed(p, x);
    forall i | 0 <= i < |q.ca[x].lits|
      ensures x in q.occurs[q.ca[x].lits[i].v]
    {
      EnteredExact(p.occurs, p.next, c, q.ca[x].lits[i].v);
    }
  }

  lemma StoredList(p: Pre, c: seq<Lit>, v: nat)
    requires PreOk(p) && DistinctVars(c) && p.next !in p.ca && v < |p.occurs|
    ensures var q := StoringClause(p, c); OccList(q.ca, q.occurs[v], v, q.dirty[v])
  {
    hide Entered, Fine, Indexed;
    var q := StoringClause(p, c);
    EnteredExact(p.occurs, p.next, c, v);
    assert OccList(p.ca, p.occurs[v], v, p.dirty[v]);
    forall i | 0 <= i < |q.occurs[v]|
      ensures OccEntry(q.ca, q.occurs[v][i], v, q.dirty[v])
    {
      assert i < |p.occurs[v]| ==> OccEntry(p.ca, p.occurs[v][i], v, p.dirty[v]);
    }
    forall i, j | 0 <= i < j < |q.occurs[v]|
      ensures q.occurs[v][i] != q.occurs[v][j]
    {
      assert OccEntry(p.ca, p.occurs[v][i], v, p.dirty[v]);
    }
  }

  lemma StoringModels(m: Model, p: Pre, c: seq<Lit>)
    requires p.next !in p.ca
    ensures Models(m, StoringClause(p, c)) <==> Models(m, p) && SatClause(m, c)
  {
    var q := StoringClause(p, c);
    if Models(m, q) {
      assert Alive(q.ca, p.next);
      forall x | Alive(p.ca, x)
        ensures SatClause(m, p.ca[x].lits)
      {
        assert Alive(q.ca, x);
      }
    }
    if Models(m, p) && SatClause(m, c) {
      forall x | Alive(q.ca, x)
        ensures SatClause(m, q.ca[x].lits)
      {
        assert x != p.next ==> Alive(p.ca, x);
      }
    }
  }

  // ---------- the size of the formula ----------

  /** The number of literals in live clauses with references below k. */
  ghost function LiveLits(ca: Store, k: nat): nat {
    if k == 0 then 0 else LiveLits(ca, k - 1) + if Alive(ca, k - 1) then |ca[k - 1].lits| else 0
  }

  lemma {:induction false} LiveLitsChange(ca: Store, k: nat, cr: nat, c: Cls)
    requires Alive(ca, cr) && (c.deleted || |c.lits| <= |ca[cr].lits|)
    ensures LiveLits(ca[cr := c], k) ==
              if cr < k then LiveLits(ca, k) - |ca[cr].lits| + (if c.deleted then 0 else |c.lits|) else LiveLits(ca, k)
    decreases k
  {
    if k > 0 {
      LiveLitsChange(ca, k - 1, cr, c);
    }
  }
}
