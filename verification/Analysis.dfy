/** Conflict analysis on the value level: the marks on variables and the clause they stand for. */
module Analysis {
  import opened Wrappers
  import opened Cnf
  import opened TrailState
  import opened ClauseDb
  import opened Cuts
  import opened Invariants
  import opened Propagation
  import opened Visits
  import opened PropagationQueue

  ghost function Marked(seen: seq<bool>): set<nat> {
    set v: nat | v < |seen| && seen[v]
  }

  /** A literal below the current level but above level 0. */
  ghost predicate Lower(t: Trail, l: Lit) {
    t.IsFalse(l) && l.v < |t.level| && 0 < t.level[l.v] < |t.lim|
  }

  /** The literals collected for the learnt clause, apart from the asserting one. */
  ghost predicate Collected(t: Trail, out: seq<Lit>) {
    DistinctVars(out) && forall i :: 0 <= i < |out| ==> Lower(t, out[i])
  }

  /** The marked variables of the current level that are still to be resolved. */
  ghost predicate Pending(t: Trail, pending: set<nat>, index: int) {
    forall v :: v in pending ==> t.Assigned(v) && v < |t.level| && t.level[v] == |t.lim| && v < |t.pos| && t.pos[v] <= index
  }

  /** seen marks the pending variables and those of the collected literals. */
  ghost predicate SeenExactly(seen: seq<bool>, pending: set<nat>, out: seq<Lit>) {
    forall v: nat :: v < |seen| ==> (seen[v] <==> v in pending || v in VarsOf(out))
  }

  ghost predicate Marks(t: Trail, n: nat, seen: seq<bool>, pending: set<nat>, out: seq<Lit>, index: int) {
    && |seen| == n == |t.assigns| && t.Wf(n) && |t.lim| > 0 && index < |t.lits|
    && Collected(t, out) && Pending(t, pending, index) && SeenExactly(seen, pending, out)
  }

  /** The literals of c from position `from` to position j are accounted for. */
  ghost predicate Covered(t: Trail, c: seq<Lit>, from: nat, j: nat, pending: set<nat>, out: seq<Lit>)
    requires t.Sized(|t.assigns|)
  {
    forall k :: from <= k < j && k < |c| && c[k].v < |t.assigns| && t.level[c[k].v] > 0 ==>
      c[k].v in pending || c[k].v in VarsOf(out)
  }

  /** The literals of c that are looked at: false, and on the trail up to index. */
  ghost predicate Readable(t: Trail, c: seq<Lit>, from: nat, index: int) {
    forall k :: from <= k < |c| ==> t.IsFalse(c[k]) && c[k].v < |t.pos| && t.pos[c[k].v] <= index
  }

  /** Marking a variable of the current level. */
  lemma MarkTop(t: Trail, n: nat, seen: seq<bool>, pending: set<nat>, out: seq<Lit>, index: int, q: Lit)
    requires Marks(t, n, seen, pending, out, index) && t.IsFalse(q) && !seen[q.v]
    requires t.level[q.v] >= |t.lim| && t.pos[q.v] <= index
    ensures Marks(t, n, seen[q.v := true], pending + {q.v}, out, index) && q.v !in pending
  {
    assert t.Levelled(q.v);
  }

  /** Collecting a literal of a lower level. */
  lemma MarkLower(t: Trail, n: nat, seen: seq<bool>, pending: set<nat>, out: seq<Lit>, index: int, q: Lit)
    requires Marks(t, n, seen, pending, out, index) && Lower(t, q) && !seen[q.v]
    ensures Marks(t, n, seen[q.v := true], pending, out + [q], index)
    ensures VarsOf(out + [q]) == VarsOf(out) + {q.v}
  {
    VarsOfAppend(out, q);
    assert forall i :: 0 <= i < |out| ==> out[i].v in VarsOf(out);
  }

  lemma VarsOfAppend(c: seq<Lit>, q: Lit)
    ensures VarsOf(c + [q]) == VarsOf(c) + {q.v}
  {
    var d := c + [q];
    assert d[|c|] == q;
    forall v
      ensures v in VarsOf(d) <==> v in VarsOf(c) + {q.v}
    {
      if v in VarsOf(c) {
        var i :| 0 <= i < |c| && c[i].v == v;
        assert d[i].v == v;
      }
    }
  }

  lemma CoveredMore(t: Trail, c: seq<Lit>, from: nat, j: nat, pending: set<nat>, out: seq<Lit>, pending': set<nat>, out': seq<Lit>)
    requires t.Sized(|t.assigns|) && Covered(t, c, from, j, pending, out) && j < |c|
    requires pending <= pending' && VarsOf(out) <= VarsOf(out')
    requires c[j].v < |t.assigns| && t.level[c[j].v] > 0 ==> c[j].v in pending' || c[j].v in VarsOf(out')
    ensures Covered(t, c, from, j + 1, pending', out')
  {
  }

  lemma CollectedBelow(t: Trail, out: seq<Lit>)
    requires Collected(t, out)
    ensures forall v :: v in VarsOf(out) ==> v < |t.level| && 0 < t.level[v] < |t.lim|
  {
    forall v | v in VarsOf(out)
      ensures v < |t.level| && 0 < t.level[v] < |t.lim|
    {
      var i :| 0 <= i < |out| && out[i].v == v;
      assert Lower(t, out[i]);
    }
  }

  /** The scan for the next marked literal stops at a pending variable. */
  lemma ScanStops(t: Trail, n: nat, seen: seq<bool>, pending: set<nat>, out: seq<Lit>, index: int)
    requires Marks(t, n, seen, pending, out, index) && pending != {}
    ensures index >= 0 && Top(t) <= index
    ensures t.lits[index].v < n
    ensures seen[t.lits[index].v] ==> t.lits[index].v in pending && t.pos[t.lits[index].v] == index
    ensures !seen[t.lits[index].v] ==> Marks(t, n, seen, pending, out, index - 1)
  {
    var v :| v in pending;
    assert t.Levelled(v) && t.lits[t.pos[v]].v == v;
    var x := t.lits[index].v;
    assert t.IsTrue(t.lits[index]) && t.Levelled(x);
    CollectedBelow(t, out);
    if !seen[x] {
      forall u | u in pending
        ensures t.pos[u] <= index - 1
      {
        assert t.lits[t.pos[u]].v == u;
      }
    }
  }

  /** Unmarking the literal found by the scan. */
  lemma Unmark(t: Trail, n: nat, seen: seq<bool>, pending: set<nat>, out: seq<Lit>, index: int)
    requires Marks(t, n, seen, pending, out, index) && index >= 0
    requires t.lits[index].v in pending && t.pos[t.lits[index].v] == index
    ensures t.lits[index].v < n
    ensures Marks(t, n, seen[t.lits[index].v := false], pending - {t.lits[index].v}, out, index - 1)
  {
    var x := t.lits[index].v;
    forall u | u in pending - {x}
      ensures t.pos[u] <= index - 1
    {
      assert t.lits[t.pos[u]].v == u;
    }
    CollectedBelow(t, out);
  }

  /** What the next clause to resolve with must provide; p is the literal it propagated. */
  ghost predicate Resolvable(t: Trail, db: Db, p: Option<Lit>, cr: nat, pending: set<nat>, out: seq<Lit>,
                             index: int, f: Problem)
    requires t.Sized(|t.assigns|)
  {
    && Live(db.ca, cr) && |db.ca[cr].lits| >= 2
    && match p
       case None =>
         && Readable(t, db.ca[cr].lits, 0, index)
         && (exists k :: 0 <= k < |db.ca[cr].lits| && OnTop(t, db.ca[cr].lits[k].v))
         && Cut(f, t, pending + VarsOf(out) + UpperVars(t, db.ca[cr].lits))
       case Some(l) =>
         && t.IsTrue(l) && !db.ca[cr].oneWatched && ReasonFor(t, db.ca[cr].lits, l)
         && l.v < |t.pos| && t.pos[l.v] == index + 1
         && Cut(f, t, pending + VarsOf(out) + (UpperVars(t, db.ca[cr].lits) - {l.v}))
  }

  /** The start of the analysis: nothing is marked. */
  lemma StartAnalysis(t: Trail, db: Db, n: nat, f: Problem, cr: nat, seen: seq<bool>)
    requires BaseOk(t, db, n, f) && |t.lim| > 0 && Conflicting(t, db.ca, cr)
    requires |seen| == n && forall v :: 0 <= v < n ==> !seen[v]
    ensures t.Sized(|t.assigns|) && Marks(t, n, seen, {}, [], |t.lits| - 1)
    ensures Resolvable(t, db, None, cr, {}, [], |t.lits| - 1, f)
  {
    hide ListsOk, Attached, Clean, ReasonsOk;
    var c := db.ca[cr].lits;
    assert ClauseOk(db.ca[cr], n);
    assert Entails(f.clauses, c);
    ConflictCut(t, f, c);
    assert VarsOf([]) == {};
    assert {} + VarsOf([]) + UpperVars(t, c) == UpperVars(t, c);
  }

  /** After marking, the cut consists of marked variables only. */
  lemma MarkedCut(t: Trail, f: Problem, c: seq<Lit>, l: Option<Lit>, pending: set<nat>, out: seq<Lit>,
                  pending': set<nat>, out': seq<Lit>)
    requires t.Sized(|t.assigns|) && pending <= pending' && VarsOf(out) <= VarsOf(out')
    requires l.None? ==> Cut(f, t, pending + VarsOf(out) + UpperVars(t, c)) && Covered(t, c, 0, |c|, pending', out')
    requires l.Some? ==> Cut(f, t, pending + VarsOf(out) + (UpperVars(t, c) - {l.value.v}))
                         && Covered(t, c, 1, |c|, pending', out') && |c| >= 1 && c[0] == l.value
    ensures Cut(f, t, pending' + VarsOf(out'))
  {
    var us := pending' + VarsOf(out');
    forall m: Model | SatAll(m, f.clauses)
      ensures !AgreesOn(m, t, us)
    {
      if AgreesOn(m, t, us) {
        if l.None? {
          assert AgreesOn(m, t, pending + VarsOf(out) + UpperVars(t, c));
        } else {
          assert AgreesOn(m, t, pending + VarsOf(out) + (UpperVars(t, c) - {l.value.v}));
        }
        assert false;
      }
    }
  }

  /** The literal picked by the scan is resolved with its reason. */
  lemma NextClause(t: Trail, db: Db, n: nat, f: Problem, pending: set<nat>, out: seq<Lit>, index: int)
    requires BaseOk(t, db, n, f) && Pending(t, pending, index) && 0 <= index < |t.lits| && |t.lim| > 0
    requires t.lits[index].v in pending && t.pos[t.lits[index].v] == index
    requires Cut(f, t, pending + VarsOf(out))
    requires pending - {t.lits[index].v} != {}
    ensures t.Sized(|t.assigns|) && t.lits[index].v < n
    ensures var p := t.lits[index];
            && t.reason[p.v].Some?
            && Resolvable(t, db, Some(p), t.reason[p.v].value, pending - {p.v}, out, index - 1, f)
  {
    hide ListsOk, Attached, Clean;
    var p := t.lits[index];
    var v := p.v;
    assert t.IsTrue(p) && t.TrueLit(v) == p;
    var u :| u in pending - {v};
    assert t.lits[t.pos[u]].v == u && t.pos[u] < index;
    assert t.Levelled(u) && t.Levelled(v);
    assert ReasonOkAt(t, db.ca, v);
    var cr := t.reason[v].value;
    var c := db.ca[cr].lits;
    assert ClauseOk(db.ca[cr], n);
    assert Entails(f.clauses, c);
    ResolveCut(t, f, pending + VarsOf(out), c, v);
    SmallerCut(t, f, pending + VarsOf(out) - {v} + (UpperVars(t, c) - {v}),
               pending - {v} + VarsOf(out) + (UpperVars(t, c) - {v}));
  }

  lemma SmallerCut(t: Trail, f: Problem, vs: set<nat>, us: set<nat>)
    requires Cut(f, t, vs) && vs <= us
    ensures Cut(f, t, us)
  {
    forall m: Model | SatAll(m, f.clauses)
      ensures !AgreesOn(m, t, us)
    {
      if AgreesOn(m, t, us) {
        assert AgreesOn(m, t, vs);
        assert false;
      }
    }
  }

  // ---------- the clause before minimisation ----------

  /** The asserting clause: false, exactly the first literal on the current level, the others
      above level 0, no variable twice. */
  ghost predicate Asserting(t: Trail, learnt: seq<Lit>) {
    && |learnt| >= 1 && DistinctVars(learnt) && AllFalse(t, learnt)
    && OnTop(t, learnt[0].v)
    && forall i :: 1 <= i < |learnt| ==> Lower(t, learnt[i])
  }

  /** The last literal found is the first unique implication point. */
  lemma UipFound(t: Trail, n: nat, f: Problem, seen: seq<bool>, pending: set<nat>, out: seq<Lit>, index: int)
    requires Marks(t, n, seen, pending, out, index) && index >= 0
    requires pending == {t.lits[index].v} && t.pos[t.lits[index].v] == index
    requires Cut(f, t, pending + VarsOf(out))
    ensures Asserting(t, [t.lits[index].Neg()] + out)
    ensures Cut(f, t, VarsOf([t.lits[index].Neg()] + out)) && VarsOf([t.lits[index].Neg()] + out) == pending + VarsOf(out)
    ensures t.lits[index].v < n
    ensures |seen| == n && Marked(seen[t.lits[index].v := false]) == VarsOf(out)
  {
    var p := t.lits[index];
    var learnt := [p.Neg()] + out;
    assert t.IsTrue(p) && t.IsFalse(p.Neg());
    assert forall i :: 1 <= i < |learnt| ==> learnt[i] == out[i - 1];
    forall i | 0 <= i < |out|
      ensures out[i].v != p.v
    {
      assert Lower(t, out[i]);
    }
    forall i | 0 <= i < |learnt|
      ensures t.IsFalse(learnt[i])
    {
      if i > 0 {
        assert Lower(t, out[i - 1]);
      }
    }
    assert VarsOf(learnt) == pending + VarsOf(out) by {
      forall v
        ensures v in VarsOf(learnt) <==> v in pending + VarsOf(out)
      {
        if v in VarsOf(out) {
          var i :| 0 <= i < |out| && out[i].v == v;
          assert learnt[i + 1].v == v;
        }
        if v == p.v {
          assert learnt[0].v == v;
        }
      }
    }
    CollectedBelow(t, out);
  }

  /** A binary reason is turned so that the propagated literal comes first. */
  lemma Oriented(t: Trail, db: Db, n: nat, f: Problem, p: Option<Lit>, cr: nat, pending: set<nat>, out: seq<Lit>,
                 index: int, q: nat)
    requires BaseOk(t, db, n, f) && PropOk(t, db, q) && t.Sized(|t.assigns|)
    requires Resolvable(t, db, p, cr, pending, out, index, f)
    requires p.Some? && Live(db.ca, cr) && |db.ca[cr].lits| == 2 && t.IsFalse(db.ca[cr].lits[0])
    ensures var db' := db.(ca := SwapWatches(db.ca, cr));
            && BaseOk(t, db', n, f) && PropOk(t, db', q) && Resolvable(t, db', p, cr, pending, out, index, f)
            && db'.ca[cr].lits[0] == p.value
  {
    hide BaseOk, PropOk;
    OrientedClause(t, db, p, cr, pending, out, index, f);
    SwapBase(t, db, n, f, cr, q);
  }

  lemma OrientedClause(t: Trail, db: Db, p: Option<Lit>, cr: nat, pending: set<nat>, out: seq<Lit>,
                       index: int, f: Problem)
    requires t.Sized(|t.assigns|) && Resolvable(t, db, p, cr, pending, out, index, f)
    requires p.Some? && Live(db.ca, cr) && |db.ca[cr].lits| == 2 && t.IsFalse(db.ca[cr].lits[0])
    ensures !db.ca[cr].oneWatched
    ensures var db' := db.(ca := SwapWatches(db.ca, cr));
            Resolvable(t, db', p, cr, pending, out, index, f) && db'.ca[cr].lits[0] == p.value
  {
    var c, d := db.ca[cr].lits, Swapped(db.ca[cr].lits, 0, 1);
    assert d == [c[1], c[0]] && c == [c[0], c[1]];
    assert c[0] != p.value && c[1] == p.value;
    SameUpper(t, c, d);
    forall k | 0 <= k < |d| && d[k] != p.value
      ensures FalseBefore(t, d[k], p.value.v)
    {
      assert FalseBefore(t, c[1 - k], p.value.v);
    }
  }

  lemma SameUpper(t: Trail, c: seq<Lit>, d: seq<Lit>)
    requires t.Sized(|t.assigns|) && |c| == 2 && d == [c[1], c[0]]
    ensures UpperVars(t, c) == UpperVars(t, d)
  {
    assert forall v :: v in UpperVars(t, c) ==> exists i :: 0 <= i < 2 && d[i].v == v && d[i].v < |t.assigns| && t.level[d[i].v] > 0 by {
      forall v | v in UpperVars(t, c)
        ensures exists i :: 0 <= i < 2 && d[i].v == v && d[i].v < |t.assigns| && t.level[d[i].v] > 0
      {
        var i :| 0 <= i < 2 && c[i].v == v;
        assert d[1 - i].v == v;
      }
    }
    forall v | v in UpperVars(t, d)
      ensures v in UpperVars(t, c)
    {
      var i :| 0 <= i < 2 && d[i].v == v;
      assert c[1 - i].v == v;
    }
  }

  /** An oriented reason is read from position 1, a conflict clause from position 0. */
  ghost predicate Reading(t: Trail, ca: Arena, n: nat, p: Option<Lit>, cr: nat, index: int) {
    && Live(ca, cr) && ClauseOk(ca[cr], n)
    && (p.Some? ==> ca[cr].lits[0] == p.value)
    && Readable(t, ca[cr].lits, if p.None? then 0 else 1, index)
  }

  lemma StartReading(t: Trail, db: Db, n: nat, f: Problem, p: Option<Lit>, cr: nat, pending: set<nat>, out: seq<Lit>, index: int)
    requires BaseOk(t, db, n, f) && Resolvable(t, db, p, cr, pending, out, index, f)
    requires p.Some? ==> |db.ca[cr].lits| > 2 || !t.IsFalse(db.ca[cr].lits[0])
    ensures Reading(t, db.ca, n, p, cr, index)
  {
    hide ListsOk, Attached, Clean, ReasonsOk, RootSound, ArenaSound, Cut;
    assert ClauseOk(db.ca[cr], n);
    if p.Some? {
      var c := db.ca[cr].lits;
      assert c[0] == p.value || FalseBefore(t, c[0], p.value.v);
      forall k | 1 <= k < |c|
        ensures t.IsFalse(c[k]) && t.pos[c[k].v] <= index
      {
        assert FalseBefore(t, c[k], p.value.v);
      }
    }
  }

  /** The conflict clause touches the current level, so something is pending. */
  lemma SomethingPending(t: Trail, n: nat, seen: seq<bool>, pending: set<nat>, out: seq<Lit>, index: int, c: seq<Lit>)
    requires Marks(t, n, seen, pending, out, index) && Covered(t, c, 0, |c|, pending, out)
    requires exists k :: 0 <= k < |c| && OnTop(t, c[k].v)
    ensures pending != {}
  {
    var k :| 0 <= k < |c| && OnTop(t, c[k].v);
    assert c[k].v in pending || c[k].v in VarsOf(out);
    CollectedBelow(t, out);
  }

  /** The clause has been read: the cut consists of marked variables, and after the conflict
      clause something is marked. */
  lemma ResolvedCut(t: Trail, db: Db, n: nat, f: Problem, p: Option<Lit>, cr: nat, index: int, pending: set<nat>, out: seq<Lit>,
                    seen': seq<bool>, pending': set<nat>, out': seq<Lit>)
    requires t.Sized(|t.assigns|) && Resolvable(t, db, p, cr, pending, out, index, f) && Reading(t, db.ca, n, p, cr, index)
    requires pending <= pending' && VarsOf(out) <= VarsOf(out') && Marks(t, n, seen', pending', out', index)
    requires Covered(t, db.ca[cr].lits, if p.None? then 0 else 1, |db.ca[cr].lits|, pending', out')
    requires p.Some? ==> pending != {}
    ensures Cut(f, t, pending' + VarsOf(out')) && pending' != {}
  {
    hide Marks, Covered, Cut, Readable, ReasonFor;
    MarkedCut(t, f, db.ca[cr].lits, p, pending, out, pending', out');
    if p.None? {
      SomethingPending(t, n, seen', pending', out', index, db.ca[cr].lits);
    }
  }

  lemma ReadingShape(t: Trail, ca: Arena, n: nat, p: Option<Lit>, cr: nat, index: int)
    requires Reading(t, ca, n, p, cr, index)
    ensures Live(ca, cr) && |ca[cr].lits| >= 1 && Readable(t, ca[cr].lits, if p.None? then 0 else 1, index)
    ensures DistinctVars(ca[cr].lits) && (p.Some? ==> ca[cr].lits[0] == p.value)
    ensures forall k :: 0 <= k < |ca[cr].lits| ==> ca[cr].lits[k].v < n
  {
  }

  lemma MarksSized(t: Trail, n: nat, seen: seq<bool>, pending: set<nat>, out: seq<Lit>, index: int)
    requires Marks(t, n, seen, pending, out, index)
    ensures |seen| == n && t.Wf(n) && |t.lim| > 0 && index < |t.lits|
  {
  }

  lemma NothingCovered(t: Trail, c: seq<Lit>, from: nat, pending: set<nat>, out: seq<Lit>)
    requires t.Sized(|t.assigns|)
    ensures Covered(t, c, from, from, pending, out)
  {
  }

  lemma MarkedAlready(t: Trail, n: nat, seen: seq<bool>, pending: set<nat>, out: seq<Lit>, index: int, v: nat)
    requires Marks(t, n, seen, pending, out, index) && v < n && seen[v]
    ensures v in pending || v in VarsOf(out)
  {
  }

  lemma ResolvableLive(t: Trail, db: Db, p: Option<Lit>, cr: nat, pending: set<nat>, out: seq<Lit>, index: int, f: Problem)
    requires t.Sized(|t.assigns|) && Resolvable(t, db, p, cr, pending, out, index, f)
    ensures Live(db.ca, cr)
  {
  }

  lemma PropagatedIsTrue(t: Trail, db: Db, p: Option<Lit>, cr: nat, pending: set<nat>, out: seq<Lit>, index: int, f: Problem)
    requires t.Sized(|t.assigns|) && Resolvable(t, db, p, cr, pending, out, index, f)
    ensures p.Some? ==> t.IsTrue(p.value)
  {
  }

  lemma OnlyOne(vs: set<nat>, v: nat)
    requires |vs| == 1 && v in vs
    ensures vs == {v}
  {
    assert |vs - {v}| == 0;
  }

  lemma PendingOf(t: Trail, n: nat, seen: seq<bool>, pending: set<nat>, out: seq<Lit>, index: int)
    requires Marks(t, n, seen, pending, out, index)
    ensures Pending(t, pending, index) && |t.lim| > 0
  {
  }
}
