/** Reordering a clause's literals and moving its watches, as unit propagation does. */
module Propagation {
  import opened Wrappers
  import opened Cnf
  import opened TrailState
  import opened ClauseDb
  import opened Cuts
  import opened Invariants

  /** d lists the literals of c in another order. */
  ghost predicate Reordered(c: seq<Lit>, d: seq<Lit>) {
    && |d| == |c| && DistinctVars(d)
    && (forall i :: 0 <= i < |c| ==> c[i] in d)
    && (forall i :: 0 <= i < |d| ==> d[i] in c)
  }

  function Swapped(c: seq<Lit>, i: nat, j: nat): (d: seq<Lit>)
    requires i < |c| && j < |c|
  {
    c[i := c[j]][j := c[i]]
  }

  lemma SwappedReorders(c: seq<Lit>, i: nat, j: nat)
    requires i < |c| && j < |c| && DistinctVars(c)
    ensures Reordered(c, Swapped(c, i, j))
  {
    var d := Swapped(c, i, j);
    forall k | 0 <= k < |c|
      ensures c[k] in d
    {
      assert d[if k == i then j else if k == j then i else k] == c[k];
    }
  }

  function WithLits(ca: Arena, cr: nat, d: seq<Lit>): Arena
    requires cr in ca
  {
    ca[cr := ca[cr].(lits := d)]
  }

  lemma ReorderArena(ca: Arena, cr: nat, d: seq<Lit>, n: nat, f: Problem)
    requires ArenaOk(ca, n) && ArenaSound(ca, f) && cr in ca && Reordered(ca[cr].lits, d)
    ensures ArenaOk(WithLits(ca, cr, d), n) && ArenaSound(WithLits(ca, cr, d), f)
  {
    var c := ca[cr].lits;
    assert ClauseOk(ca[cr], n);
    forall i | 0 <= i < |d|
      ensures d[i].v < n
    {
      var j :| 0 <= j < |c| && c[j] == d[i];
    }
    assert ClauseOk(ca[cr].(lits := d), n);
    assert ContentOf(ca[cr].(lits := d)) == ContentOf(ca[cr]);
    assert Entails(f.clauses, c);
    forall m: Model | SatAll(m, f.clauses)
      ensures SatClause(m, d)
    {
      SatSubset(m, c, d);
    }
    assert Entails(f.clauses, d);
  }

  /** Watchers of the other schemes do not name the clause. */
  lemma ReorderOtherKind(ca: Arena, cr: nat, d: seq<Lit>, lists: Lists, n: nat, kind: Kind)
    requires cr in ca && |d| == |ca[cr].lits| && KindOf(ca[cr]) != kind
    requires ListsOk(ca, lists, n, kind) && Attached(ca, lists, kind)
    ensures ListsOk(WithLits(ca, cr, d), lists, n, kind) && Attached(WithLits(ca, cr, d), lists, kind)
  {
    var ca' := WithLits(ca, cr, d);
    forall p: Lit | p in lists
      ensures ListOk(ca', lists[p], p, kind)
    {
      assert ListOk(ca, lists[p], p, kind);
      forall i | 0 <= i < |lists[p]|
        ensures WatcherOk(ca', lists[p][i], p, kind)
      {
        assert WatcherOk(ca, lists[p][i], p, kind);
      }
    }
    forall x | Live(ca', x)
      ensures AttachedAt(ca'[x], x, lists, kind)
    {
      assert Live(ca, x) && AttachedAt(ca[x], x, lists, kind);
    }
  }

  /** Exchanging the two watched literals of a clause keeps its watches in place. */
  lemma SwapLists(ca: Arena, cr: nat, lists: Lists, n: nat, kind: Kind)
    requires cr in ca && ClauseOk(ca[cr], n) && !ca[cr].oneWatched
    requires ListsOk(ca, lists, n, kind) && Attached(ca, lists, kind)
    ensures ListsOk(WithLits(ca, cr, Swapped(ca[cr].lits, 0, 1)), lists, n, kind)
    ensures Attached(WithLits(ca, cr, Swapped(ca[cr].lits, 0, 1)), lists, kind)
  {
    var d := Swapped(ca[cr].lits, 0, 1);
    SwappedReorders(ca[cr].lits, 0, 1);
    var ca' := WithLits(ca, cr, d);
    forall p: Lit | p in lists
      ensures ListOk(ca', lists[p], p, kind)
    {
      assert ListOk(ca, lists[p], p, kind);
      forall i | 0 <= i < |lists[p]|
        ensures WatcherOk(ca', lists[p][i], p, kind)
      {
        assert WatcherOk(ca, lists[p][i], p, kind);
      }
    }
    forall x | Live(ca', x)
      ensures AttachedAt(ca'[x], x, lists, kind)
    {
      assert Live(ca, x) && AttachedAt(ca[x], x, lists, kind);
    }
  }

  lemma ReorderPropagated(t: Trail, ca: Arena, cr: nat, d: seq<Lit>, lists: Lists, q: nat)
    requires cr in ca && Propagated(t, ca, lists, q)
    ensures Propagated(t, WithLits(ca, cr, d), lists, q)
  {
    var ca' := WithLits(ca, cr, d);
    forall p: Lit | p in lists && Processed(t, p, q)
      ensures SettledList(t, ca', lists[p], p)
    {
      assert SettledList(t, ca, lists[p], p);
      forall i | 0 <= i < |lists[p]|
        ensures Settled(t, ca', lists[p][i], p)
      {
        assert Settled(t, ca, lists[p][i], p);
      }
    }
  }

  /** The clause may be reordered as long as the literal it propagated, if any, stays in a
      reason position. */
  lemma ReorderReasons(t: Trail, ca: Arena, cr: nat, d: seq<Lit>)
    requires t.Sized(|t.assigns|) && ReasonsOk(t, ca)
    requires cr in ca && Reordered(ca[cr].lits, d) && |d| >= 2
    requires |d| == 2 || d[0] == ca[cr].lits[0] || !t.IsTrue(ca[cr].lits[0])
    ensures ReasonsOk(t, WithLits(ca, cr, d))
  {
    var ca' := WithLits(ca, cr, d);
    forall v: nat | v < |t.assigns|
      ensures ReasonOkAt(t, ca', v)
    {
      assert ReasonOkAt(t, ca, v);
      if t.Assigned(v) && t.level[v] > 0 && t.reason[v] == Some(cr) {
        ReorderReasonFor(t, ca[cr].lits, d, v);
      }
    }
  }

  lemma ReorderReasonFor(t: Trail, c: seq<Lit>, d: seq<Lit>, v: nat)
    requires t.Assigned(v) && ReasonFor(t, c, t.TrueLit(v)) && Reordered(c, d)
    requires |d| == 2 || d[0] == c[0] || !t.IsTrue(c[0])
    ensures ReasonFor(t, d, t.TrueLit(v))
  {
    assert t.IsTrue(t.TrueLit(v));
    if |d| == 2 {
      assert t.TrueLit(v) in c;
      assert t.TrueLit(v) in d;
    }
    forall k | 0 <= k < |d| && d[k] != t.TrueLit(v)
      ensures FalseBefore(t, d[k], v)
    {
      var j :| 0 <= j < |c| && c[j] == d[k];
      assert FalseBefore(t, c[j], v);
    }
  }

  // ---------- one visit of a watcher in the list of p ----------

  /** The list of p is done + rest; the part done so far is settled. */
  ghost predicate Visiting(t: Trail, ca: Arena, lists: Lists, n: nat, p: Lit, done: seq<Watcher>, rest: seq<Watcher>) {
    && p in lists && lists[p] == done + rest
    && ListsOk(ca, lists, n, Long) && Attached(ca, lists, Long)
    && SettledList(t, ca, done, p)
  }

  /** Keeping a watcher with a true blocker of no higher level. */
  lemma KeepWatcher(t: Trail, ca: Arena, lists: Lists, n: nat, p: Lit,
                    done: seq<Watcher>, w: Watcher, rest: seq<Watcher>, b: Lit, q: nat)
    requires Visiting(t, ca, lists, n, p, done, [w] + rest)
    requires Live(ca, w.cref) ==> b in ca[w.cref].lits && b != p.Neg()
    ensures var w' := Watcher(w.cref, b); var lists' := lists[p := done + [w'] + rest];
            && ListsOk(ca, lists', n, Long) && Attached(ca, lists', Long)
            && (Settled(t, ca, w', p) ==> Visiting(t, ca, lists', n, p, done + [w'], rest))
            && (!Processed(t, p, q) && Propagated(t, ca, lists, q) ==> Propagated(t, ca, lists', q))
  {
    var w' := Watcher(w.cref, b);
    var lists' := lists[p := done + [w'] + rest];
    var ws, ws' := lists[p], lists'[p];
    assert ws == done + [w] + rest;
    forall r: Lit | r in lists'
      ensures ListOk(ca, lists'[r], r, Long)
    {
      assert ListOk(ca, lists[r], r, Long);
      if r == p {
        forall i | 0 <= i < |ws'|
          ensures WatcherOk(ca, ws'[i], p, Long)
        {
          assert WatcherOk(ca, ws[i], p, Long);
        }
        assert forall i :: 0 <= i < |ws'| ==> ws'[i].cref == ws[i].cref;
      }
    }
    SameRefs(ca, lists, lists', p);
    if Settled(t, ca, w', p) {
      assert lists'[p] == (done + [w']) + rest;
    }
    if !Processed(t, p, q) && Propagated(t, ca, lists, q) {
      forall r: Lit | r in lists' && Processed(t, r, q)
        ensures SettledList(t, ca, lists'[r], r)
      {
        assert SettledList(t, ca, lists[r], r);
      }
    }
  }

  lemma SameRefs(ca: Arena, lists: Lists, lists': Lists, p: Lit)
    requires p in lists && p in lists' && Attached(ca, lists, Long)
    requires lists' == lists[p := lists'[p]] && |lists'[p]| == |lists[p]|
    requires forall i :: 0 <= i < |lists[p]| ==> lists'[p][i].cref == lists[p][i].cref
    ensures Attached(ca, lists', Long)
  {
    forall r: Lit, cr | RefIn(lists, r, cr)
      ensures RefIn(lists', r, cr)
    {
      var i :| 0 <= i < |lists[r]| && lists[r][i].cref == cr;
      assert lists'[r][i].cref == cr;
    }
    AppendKeepsAttached(ca, lists, lists', Long);
  }

  /** Taking a watcher out of the list of p keeps the lists in order. */
  lemma DropWatcher(ca: Arena, lists: Lists, n: nat, kind: Kind, p: Lit, done: seq<Watcher>, w: Watcher, rest: seq<Watcher>)
    requires ListsOk(ca, lists, n, kind) && p in lists && lists[p] == done + [w] + rest
    ensures ListsOk(ca, lists[p := done + rest], n, kind)
    ensures !RefIn(lists[p := done + rest], p, w.cref)
    ensures forall r: Lit, cr :: RefIn(lists, r, cr) && (r != p || cr != w.cref) ==> RefIn(lists[p := done + rest], r, cr)
    ensures forall r: Lit, cr :: RefIn(lists[p := done + rest], r, cr) ==> RefIn(lists, r, cr)
  {
    var lists' := lists[p := done + rest];
    var ws, ws' := lists[p], done + rest;
    assert forall i :: 0 <= i < |ws'| ==> ws'[i] == ws[if i < |done| then i else i + 1];
    assert ws[|done|] == w;
    forall r: Lit | r in lists'
      ensures ListOk(ca, lists'[r], r, kind)
    {
      assert ListOk(ca, lists[r], r, kind);
    }
    forall r: Lit, cr | RefIn(lists, r, cr) && (r != p || cr != w.cref)
      ensures RefIn(lists', r, cr)
    {
      var i :| 0 <= i < |lists[r]| && lists[r][i].cref == cr;
      if r == p {
        assert ws'[if i < |done| then i else i - 1].cref == cr;
      } else {
        assert lists'[r][i].cref == cr;
      }
    }
    forall r: Lit, cr | RefIn(lists', r, cr)
      ensures RefIn(lists, r, cr)
    {
      var i :| 0 <= i < |lists'[r]| && lists'[r][i].cref == cr;
      if r == p {
        assert ws[if i < |done| then i else i + 1].cref == cr;
      } else {
        assert lists[r][i].cref == cr;
      }
    }
  }

  /** Where the live clause cr may be watched. */
  lemma WatchedWhere(ca: Arena, lists: Lists, n: nat, cr: nat)
    requires ListsOk(ca, lists, n, Long) && Live(ca, cr) && |ca[cr].lits| >= 2
    ensures forall r: Lit :: RefIn(lists, r, cr) ==> r == ca[cr].lits[0].Neg() || r == ca[cr].lits[1].Neg()
  {
    forall r: Lit | RefIn(lists, r, cr)
      ensures r == ca[cr].lits[0].Neg() || r == ca[cr].lits[1].Neg()
    {
      RefsKnown(ca, lists, n, Long, r, cr);
      assert r.Neg().Neg() == r;
    }
  }

  /** A clause that no list names may be reordered freely, as far as the lists go. */
  lemma ReorderUnlisted(ca: Arena, cr: nat, d: seq<Lit>, lists: Lists, n: nat)
    requires cr in ca && ListsOk(ca, lists, n, Long)
    requires Reordered(ca[cr].lits, d) && |d| >= 2 && d[0] == ca[cr].lits[0]
    requires forall r: Lit :: RefIn(lists, r, cr) ==> r == d[0].Neg()
    ensures ListsOk(WithLits(ca, cr, d), lists, n, Long)
  {
    var ca' := WithLits(ca, cr, d);
    forall r: Lit | r in lists
      ensures ListOk(ca', lists[r], r, Long)
    {
      assert ListOk(ca, lists[r], r, Long);
      forall i | 0 <= i < |lists[r]|
        ensures WatcherOk(ca', lists[r][i], r, Long)
      {
        var w := lists[r][i];
        assert WatcherOk(ca, w, r, Long);
        if w.cref == cr {
          assert RefIn(lists, r, cr);
        }
      }
    }
  }

  /** The second watch moves from the false literal to the literal at position k. */
  lemma MoveWatcher(ca: Arena, lists: Lists, n: nat, p: Lit, done: seq<Watcher>, w: Watcher, rest: seq<Watcher>, k: nat)
    requires ArenaOk(ca, n) && ListsOk(ca, lists, n, Long) && Attached(ca, lists, Long)
    requires p in lists && lists[p] == done + [w] + rest
    requires Live(ca, w.cref) && KindOf(ca[w.cref]) == Long
    requires 2 <= k < |ca[w.cref].lits| && ca[w.cref].lits[1] == p.Neg()
    ensures var c := ca[w.cref].lits; var d := Swapped(c, 1, k); var r := c[k].Neg();
            var lists' := lists[p := done + rest];
            && r != p && r in lists'
            && ListsOk(WithLits(ca, w.cref, d), lists'[r := lists'[r] + [Watcher(w.cref, c[0])]], n, Long)
            && Attached(WithLits(ca, w.cref, d), lists'[r := lists'[r] + [Watcher(w.cref, c[0])]], Long)
  {
    var cr := w.cref;
    var c := ca[cr].lits;
    var d := Swapped(c, 1, k);
    var r := c[k].Neg();
    assert ClauseOk(ca[cr], n);
    assert c[0].v != c[1].v && c[0].v != c[k].v && c[1].v != c[k].v;
    assert p.Neg().Neg() == p && p == c[1].Neg();
    SwappedReorders(c, 1, k);
    var lists1 := lists[p := done + rest];
    DropWatcher(ca, lists, n, Long, p, done, w, rest);
    WatchedWhere(ca, lists, n, cr);
    ReorderUnlisted(ca, cr, d, lists1, n);
    var ca' := WithLits(ca, cr, d);
    var w' := Watcher(cr, c[0]);
    assert !RefIn(lists1, r, cr);
    assert WatcherOk(ca', w', r, Long) by {
      assert d[1] == c[k] && d[0] == c[0];
      assert r.Neg() == c[k];
      assert d[0] in d;
    }
    AppendWatcher(ca', lists1, n, Long, r, w');
    var lists2 := lists1[r := lists1[r] + [w']];
    MovedAttached(ca, lists, cr, d, lists1, lists2);
  }

  /** The moved clause is watched by its new literals, all others are watched as before. */
  lemma MovedAttached(ca: Arena, lists: Lists, cr: nat, d: seq<Lit>, lists1: Lists, lists2: Lists)
    requires Attached(ca, lists, Long) && Live(ca, cr) && |d| >= 2 && KindOf(ca[cr]) == Long
    requires forall r: Lit, x :: RefIn(lists, r, x) && x != cr ==> RefIn(lists1, r, x)
    requires forall r: Lit, x :: RefIn(lists1, r, x) ==> RefIn(lists2, r, x)
    requires RefIn(lists2, d[0].Neg(), cr) && RefIn(lists2, d[1].Neg(), cr)
    ensures Attached(WithLits(ca, cr, d), lists2, Long)
  {
    var ca' := WithLits(ca, cr, d);
    forall x | Live(ca', x)
      ensures AttachedAt(ca'[x], x, lists2, Long)
    {
      assert Live(ca, x) && AttachedAt(ca[x], x, lists, Long);
    }
  }
}
