/** The invariants of the search, and how each move on the trail keeps them. */
module Invariants {
  import opened Wrappers
  import opened Cnf
  import opened TrailState
  import opened ClauseDb
  import opened Cuts

  /** The clause arena and the three families of watcher lists. */
  datatype Db = Db(ca: Arena, next: nat, long: Lists, bin: Lists, unary: Lists)

  ghost predicate DbOk(db: Db, n: nat, f: Problem) {
    && ArenaOk(db.ca, n) && ArenaSound(db.ca, f)
    && (forall cr :: cr in db.ca ==> cr < db.next)
    && ListsOk(db.ca, db.long, n, Long) && Attached(db.ca, db.long, Long)
    && ListsOk(db.ca, db.bin, n, Binary) && Attached(db.ca, db.bin, Binary)
    && ListsOk(db.ca, db.unary, n, Unary) && Attached(db.ca, db.unary, Unary)
  }

  ghost predicate TrailOk(t: Trail, ca: Arena, n: nat, f: Problem) {
    t.Wf(n) && RootSound(t, f) && ReasonsOk(t, ca)
  }

  ghost predicate PropOk(t: Trail, db: Db, q: nat) {
    Propagated(t, db.ca, db.long, q) && Propagated(t, db.ca, db.bin, q) && Propagated(t, db.ca, db.unary, q)
  }

  // ---------- pushing a literal ----------

  /** c becomes the reason of p: p is in a reason position and everything else is false. */
  ghost predicate UnitFor(t: Trail, c: seq<Lit>, p: Lit) {
    && |c| >= 2 && (c[0] == p || (|c| == 2 && c[1] == p))
    && forall k :: 0 <= k < |c| && c[k] != p ==> t.IsFalse(c[k])
  }

  lemma PushReasons(t: Trail, ca: Arena, n: nat, p: Lit, from: Option<nat>)
    requires t.Wf(n) && ReasonsOk(t, ca) && p.v < n && t.IsUndef(p)
    requires from.None? && t.lim != [] ==> t.lim[|t.lim| - 1] == |t.lits|
    requires from.Some? ==> Live(ca, from.value) && !ca[from.value].oneWatched && UnitFor(t, ca[from.value].lits, p)
    ensures t.Push(p, from).Sized(n) && ReasonsOk(t.Push(p, from), ca)
  {
    var u := t.Push(p, from);
    forall v: nat | v < n
      ensures ReasonOkAt(u, ca, v)
    {
      assert ReasonOkAt(t, ca, v);
      if v == p.v {
        assert u.TrueLit(v) == p;
        if from.Some? {
          var c := ca[from.value].lits;
          forall k | 0 <= k < |c| && c[k] != p
            ensures FalseBefore(u, c[k], v)
          {
            assert t.IsFalse(c[k]);
            assert t.pos[c[k].v] < |t.lits|;
          }
        }
      } else if t.Assigned(v) && t.level[v] > 0 && t.reason[v].Some? {
        KeepsReasonFor(t, u, ca[t.reason[v].value].lits, v);
      }
    }
  }

  /** Reasons survive any change of the trail that keeps the earlier part. */
  lemma KeepsReasonFor(t: Trail, u: Trail, c: seq<Lit>, v: nat)
    requires t.Sized(|t.assigns|) && u.Sized(|t.assigns|) && t.Assigned(v)
    requires ReasonFor(t, c, t.TrueLit(v)) && u.assigns[v] == t.assigns[v] && u.pos[v] == t.pos[v]
    requires forall w: nat :: t.Assigned(w) && t.pos[w] < t.pos[v] ==> u.assigns[w] == t.assigns[w] && u.pos[w] == t.pos[w]
    ensures ReasonFor(u, c, u.TrueLit(v))
  {
    forall k | 0 <= k < |c| && c[k] != u.TrueLit(v)
      ensures FalseBefore(u, c[k], v)
    {
      assert FalseBefore(t, c[k], v);
      assert t.Assigned(c[k].v);
    }
  }

  /** At level 0 a unit clause yields an entailed literal. */
  lemma RootUnit(t: Trail, f: Problem, c: seq<Lit>, p: Lit)
    requires t.Sized(|t.assigns|) && RootSound(t, f) && Entails(f.clauses, c) && UnitFor(t, c, p)
    requires forall v: nat :: t.Assigned(v) ==> t.level[v] == 0
    ensures Entails(f.clauses, [p])
  {
    forall m: Model | SatAll(m, f.clauses)
      ensures SatClause(m, [p])
    {
      var i :| 0 <= i < |c| && Holds(m, c[i]);
      if c[i] != p {
        assert t.Assigned(c[i].v);
        RootAgrees(m, t, f, c[i].v);
        FalseMeansDisagree(m, t, c[i]);
      } else {
        assert [p][0] == p;
      }
    }
  }

  lemma PushRootSound(t: Trail, n: nat, f: Problem, p: Lit, from: Option<nat>)
    requires t.Wf(n) && RootSound(t, f) && p.v < n && t.IsUndef(p)
    requires t.lim == [] ==> Entails(f.clauses, [p])
    ensures t.Push(p, from).Sized(n) && RootSound(t.Push(p, from), f)
  {
    var u := t.Push(p, from);
    forall v: nat | u.Assigned(v) && u.level[v] == 0
      ensures Entails(f.clauses, [u.TrueLit(v)])
    {
      if v == p.v {
        assert u.TrueLit(v) == p;
      } else {
        assert t.Assigned(v) && t.TrueLit(v) == u.TrueLit(v);
      }
    }
  }

  /** Enqueueing a decision, or at level 0 an entailed literal. */
  lemma PushFree(t: Trail, ca: Arena, n: nat, f: Problem, p: Lit)
    requires TrailOk(t, ca, n, f) && p.v < n && t.IsUndef(p)
    requires if t.lim == [] then Entails(f.clauses, [p]) else t.lim[|t.lim| - 1] == |t.lits|
    ensures TrailOk(t.Push(p, None), ca, n, f)
  {
    PushWf(t, n, p, None);
    PushReasons(t, ca, n, p, None);
    PushRootSound(t, n, f, p, None);
  }

  /** Enqueueing a literal propagated by a clause. */
  lemma PushForced(t: Trail, ca: Arena, n: nat, f: Problem, p: Lit, cr: nat)
    requires TrailOk(t, ca, n, f) && p.v < n && t.IsUndef(p)
    requires Live(ca, cr) && !ca[cr].oneWatched && Entails(f.clauses, ca[cr].lits) && UnitFor(t, ca[cr].lits, p)
    ensures TrailOk(t.Push(p, Some(cr)), ca, n, f)
  {
    PushWf(t, n, p, Some(cr));
    PushReasons(t, ca, n, p, Some(cr));
    if t.lim == [] {
      assert forall v: nat :: t.Assigned(v) ==> t.Levelled(v);
      RootUnit(t, f, ca[cr].lits, p);
    }
    PushRootSound(t, n, f, p, Some(cr));
  }

  lemma PushPropagated(t: Trail, ca: Arena, n: nat, lists: Lists, q: nat, p: Lit, from: Option<nat>)
    requires t.Wf(n) && p.v < n && t.IsUndef(p) && q <= |t.lits|
    requires Propagated(t, ca, lists, q)
    ensures Propagated(t.Push(p, from), ca, lists, q)
  {
    var u := t.Push(p, from);
    forall r: Lit | r in lists && Processed(u, r, q)
      ensures SettledList(u, ca, lists[r], r)
    {
      assert r.v != p.v;
      assert Processed(t, r, q);
      PushSettled(t, ca, n, lists[r], r, p, from);
    }
  }

  lemma PushSettled(t: Trail, ca: Arena, n: nat, ws: seq<Watcher>, r: Lit, p: Lit, from: Option<nat>)
    requires t.Wf(n) && p.v < n && t.IsUndef(p) && t.IsTrue(r) && SettledList(t, ca, ws, r)
    ensures SettledList(t.Push(p, from), ca, ws, r)
  {
    var u := t.Push(p, from);
    forall i | 0 <= i < |ws|
      ensures Settled(u, ca, ws[i], r)
    {
      assert Settled(t, ca, ws[i], r);
    }
  }

  // ---------- opening and closing levels ----------

  lemma NewLevelOk(t: Trail, db: Db, n: nat, f: Problem, q: nat)
    requires TrailOk(t, db.ca, n, f) && PropOk(t, db, q)
    ensures TrailOk(t.NewLevel(), db.ca, n, f) && PropOk(t.NewLevel(), db, q)
  {
    var u := t.NewLevel();
    NewLevelWf(t, n);
    forall v: nat | v < n
      ensures ReasonOkAt(u, db.ca, v)
    {
      assert ReasonOkAt(t, db.ca, v);
      if t.Assigned(v) && t.level[v] > 0 {
        assert t.Levelled(v);
        if t.reason[v].Some? {
          KeepsReasonFor(t, u, db.ca[t.reason[v].value].lits, v);
        }
      }
    }
    assert RootSound(u, f) by {
      forall v: nat | u.Assigned(v) && u.level[v] == 0
        ensures Entails(f.clauses, [u.TrueLit(v)])
      {
        assert t.Assigned(v);
      }
    }
    SameAssignmentsPropagated(t, u, db.ca, db.long, q);
    SameAssignmentsPropagated(t, u, db.ca, db.bin, q);
    SameAssignmentsPropagated(t, u, db.ca, db.unary, q);
  }

  lemma SameAssignmentsPropagated(t: Trail, u: Trail, ca: Arena, lists: Lists, q: nat)
    requires Propagated(t, ca, lists, q)
    requires u.assigns == t.assigns && u.level == t.level && u.pos == t.pos
    ensures Propagated(u, ca, lists, q)
  {
    forall r: Lit | r in lists && Processed(u, r, q)
      ensures SettledList(u, ca, lists[r], r)
    {
      assert Processed(t, r, q);
      assert SettledList(t, ca, lists[r], r);
      forall i | 0 <= i < |lists[r]|
        ensures Settled(u, ca, lists[r][i], r)
      {
        assert Settled(t, ca, lists[r][i], r);
      }
    }
  }

  lemma CancelPropagated(t: Trail, ca: Arena, n: nat, lists: Lists, q: nat, k: nat)
    requires t.Wf(n) && k < |t.lim| && t.lim[k] <= q
    requires Propagated(t, ca, lists, q)
    ensures Propagated(t.Cancel(k), ca, lists, t.lim[k])
  {
    var u := t.Cancel(k);
    CancelWf(t, n, k);
    forall r: Lit | r in lists && Processed(u, r, t.lim[k])
      ensures SettledList(u, ca, lists[r], r)
    {
      assert u.Assigned(r.v) && t.IsTrue(r);
      assert Processed(t, r, q);
      assert SettledList(t, ca, lists[r], r);
      forall i | 0 <= i < |lists[r]|
        ensures Settled(u, ca, lists[r][i], r)
      {
        var w := lists[r][i];
        assert Settled(t, ca, w, r);
        if Live(ca, w.cref) && !Exempt(ca[w.cref]) {
          assert u.Assigned(w.blocker.v);
        }
      }
    }
  }

  /** The invariants survive backtracking to any level. */
  lemma CancelOk(t: Trail, db: Db, n: nat, f: Problem, q: nat, k: nat)
    requires TrailOk(t, db.ca, n, f) && PropOk(t, db, q)
    requires k < |t.lim| && t.lim[k] <= q
    ensures TrailOk(t.Cancel(k), db.ca, n, f) && PropOk(t.Cancel(k), db, t.lim[k])
  {
    var u := t.Cancel(k);
    CancelWf(t, n, k);
    forall v: nat | v < n
      ensures ReasonOkAt(u, db.ca, v)
    {
      assert ReasonOkAt(t, db.ca, v);
      if u.Assigned(v) && u.level[v] > 0 {
        assert t.Levelled(v) && u.Levelled(v);
        if t.reason[v].Some? {
          EarlierSurvives(t, n, k, v);
          KeepsReasonFor(t, u, db.ca[t.reason[v].value].lits, v);
        }
      }
    }
    assert RootSound(u, f) by {
      forall v: nat | u.Assigned(v) && u.level[v] == 0
        ensures Entails(f.clauses, [u.TrueLit(v)])
      {
        assert t.Assigned(v) && t.TrueLit(v) == u.TrueLit(v);
      }
    }
    CancelPropagated(t, db.ca, n, db.long, q, k);
    CancelPropagated(t, db.ca, n, db.bin, q, k);
    CancelPropagated(t, db.ca, n, db.unary, q, k);
  }

  lemma EarlierSurvives(t: Trail, n: nat, k: nat, v: nat)
    requires t.Wf(n) && k < |t.lim| && t.Cancel(k).Assigned(v)
    ensures forall w: nat :: t.Assigned(w) && t.pos[w] < t.pos[v] ==> t.Cancel(k).assigns[w] == t.assigns[w]
  {
    CancelWf(t, n, k);
    forall w: nat | t.Assigned(w) && t.pos[w] < t.pos[v]
      ensures t.Cancel(k).assigns[w] == t.assigns[w]
    {
      EarlierIsNoHigher(t, n, w, v);
    }
  }
}
