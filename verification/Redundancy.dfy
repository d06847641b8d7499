/** What minimisation must drop and what it must keep, said by the reasons on the trail. */
module Redundancy {
  import opened Wrappers
  import opened Cnf
  import opened TrailState
  import opened ClauseDb
  import opened Cuts
  import opened Invariants
  import opened Propagation
  import opened Visits
  import opened Analysis
  import opened Minimise

  /** v was propagated because of u, among others, and u is above level 0. */
  ghost predicate Antecedent(t: Trail, f: Problem, v: nat, u: nat) {
    && v < |t.reason| && t.reason[v].Some? && t.reason[v].value in f.store && u != v
    && u < |t.level| && t.level[u] > 0 && Mentions(f.store[t.reason[v].value].lits, u)
  }

  ghost predicate Mentions(c: set<Lit>, u: nat) {
    exists l :: l in c && l.v == u
  }

  /** The levels of the literals after the first, modulo 32: the bits that are set in the mask. */
  function LevelBits(t: Trail, c: seq<Lit>): set<nat> {
    set i | 1 <= i < |c| && c[i].v < |t.level| :: t.level[c[i].v] % 32
  }

  /** A check goes on at u: it has a reason, and the bit of its level is set. */
  ghost predicate Passable(t: Trail, bits: set<nat>, u: nat) {
    u < |t.reason| && u < |t.level| && t.reason[u].Some? && t.level[u] % 32 in bits
  }

  /** Each variable is an unmarked antecedent of the one before. */
  ghost predicate Chain(t: Trail, f: Problem, marked: set<nat>, vs: seq<nat>) {
    |vs| > 0 && forall i :: 0 < i < |vs| ==> vs[i] !in marked && Antecedent(t, f, vs[i - 1], vs[i])
  }

  ghost predicate Reach(t: Trail, f: Problem, marked: set<nat>, p: nat, v: nat) {
    exists vs :: Chain(t, f, marked, vs) && vs[0] == p && vs[|vs| - 1] == v
  }

  /** v has an unmarked antecedent at which a check cannot go on. */
  ghost predicate Stops(t: Trail, f: Problem, marked: set<nat>, bits: set<nat>, v: nat, u: nat) {
    Antecedent(t, f, v, u) && u !in marked && !Passable(t, bits, u)
  }

  /** A chain of reasons from p through unmarked variables ends at a decision, or at a level whose
      bit is missing. */
  ghost predicate Needed(t: Trail, f: Problem, marked: set<nat>, bits: set<nat>, p: nat) {
    exists v, u :: Reach(t, f, marked, p, v) && Stops(t, f, marked, bits, v, u)
  }

  /** The variable is a decision, or needed. */
  ghost predicate Stays(t: Trail, f: Problem, marked: set<nat>, bits: set<nat>, v: nat) {
    (v < |t.reason| && t.reason[v].None?) || Needed(t, f, marked, bits, v)
  }

  // ---------- one check ----------

  ghost predicate AllMarked(t: Trail, f: Problem, marked: set<nat>, v: nat) {
    forall u :: Antecedent(t, f, v, u) ==> u in marked
  }

  /** What checks have marked besides marked0 is passable and has only marked antecedents. */
  ghost predicate FineMarks(t: Trail, f: Problem, marked0: set<nat>, bits: set<nat>, marked: set<nat>) {
    && marked0 <= marked
    && forall v :: v in marked && v !in marked0 ==> Passable(t, bits, v) && AllMarked(t, f, marked, v)
  }

  /** A check of p under way: `added` was marked by it, and all but `open` have only marked
      antecedents. */
  ghost predicate Tracking(t: Trail, f: Problem, marked0: set<nat>, bits: set<nat>, p: nat, before: set<nat>, added: set<nat>, open: set<nat>) {
    && FineMarks(t, f, marked0, bits, before) && added !! before
    && (forall v :: v in added ==> Passable(t, bits, v) && Reach(t, f, marked0, p, v))
    && forall v :: v in added + {p} && v !in open ==> AllMarked(t, f, before + added, v)
  }

  lemma StartTracking(t: Trail, f: Problem, marked0: set<nat>, bits: set<nat>, p: nat, before: set<nat>)
    requires FineMarks(t, f, marked0, bits, before)
    ensures Tracking(t, f, marked0, bits, p, before, {}, {p})
  {
  }

  lemma ReachSelf(t: Trail, f: Problem, marked0: set<nat>, p: nat)
    ensures Reach(t, f, marked0, p, p)
  {
    var vs := [p];
    assert Chain(t, f, marked0, vs) && vs[0] == p && vs[|vs| - 1] == p;
  }

  lemma ReachNext(t: Trail, f: Problem, marked0: set<nat>, p: nat, v: nat, u: nat)
    requires Reach(t, f, marked0, p, v) && Antecedent(t, f, v, u) && u !in marked0
    ensures Reach(t, f, marked0, p, u)
  {
    var vs :| Chain(t, f, marked0, vs) && vs[0] == p && vs[|vs| - 1] == v;
    var more := vs + [u];
    assert Chain(t, f, marked0, more) && more[0] == p && more[|more| - 1] == u;
  }

  /** The checked variable, or one that its check has marked, is reached. */
  lemma TrackedReach(t: Trail, f: Problem, marked0: set<nat>, bits: set<nat>, p: nat, before: set<nat>, added: set<nat>, open: set<nat>, x: nat)
    requires Tracking(t, f, marked0, bits, p, before, added, open) && x in added + {p}
    ensures Reach(t, f, marked0, p, x)
  {
    ReachSelf(t, f, marked0, p);
  }

  /** An unmarked antecedent of x is marked and left open. */
  lemma TrackPush(t: Trail, f: Problem, marked0: set<nat>, bits: set<nat>, p: nat, before: set<nat>, added: set<nat>, open: set<nat>, x: nat, u: nat)
    requires Tracking(t, f, marked0, bits, p, before, added, open) && x in added + {p}
    requires Antecedent(t, f, x, u) && u !in before + added && Passable(t, bits, u)
    ensures Tracking(t, f, marked0, bits, p, before, added + {u}, open + {u})
  {
    hide Antecedent, Passable, Reach;
    TrackedReach(t, f, marked0, bits, p, before, added, open, x);
    ReachNext(t, f, marked0, p, x, u);
    forall v | v in added + {u} + {p} && v !in open + {u}
      ensures AllMarked(t, f, before + (added + {u}), v)
    {
      assert AllMarked(t, f, before + added, v);
    }
  }

  /** An unmarked antecedent of x ends the check. */
  lemma TrackStops(t: Trail, f: Problem, marked0: set<nat>, bits: set<nat>, p: nat, before: set<nat>, added: set<nat>, open: set<nat>, x: nat, u: nat)
    requires Tracking(t, f, marked0, bits, p, before, added, open) && x in added + {p}
    requires Antecedent(t, f, x, u) && u !in before + added && !Passable(t, bits, u)
    ensures Needed(t, f, marked0, bits, p)
  {
    TrackedReach(t, f, marked0, bits, p, before, added, open, x);
    assert Stops(t, f, marked0, bits, x, u);
  }

  /** All antecedents of x are marked. */
  lemma TrackClose(t: Trail, f: Problem, marked0: set<nat>, bits: set<nat>, p: nat, before: set<nat>, added: set<nat>, open: set<nat>, open': set<nat>, x: nat)
    requires Tracking(t, f, marked0, bits, p, before, added, open) && open <= open' + {x} && AllMarked(t, f, before + added, x)
    ensures Tracking(t, f, marked0, bits, p, before, added, open')
  {
  }

  /** With nothing open the marks are fine, and p is not needed. */
  lemma TrackDone(t: Trail, f: Problem, marked0: set<nat>, bits: set<nat>, p: nat, before: set<nat>, added: set<nat>)
    requires Tracking(t, f, marked0, bits, p, before, added, {})
    ensures FineMarks(t, f, marked0, bits, before + added) && !Needed(t, f, marked0, bits, p)
  {
    var marked := before + added;
    forall v | v in marked && v !in marked0
      ensures Passable(t, bits, v) && AllMarked(t, f, marked, v)
    {
      assert v in before ==> AllMarked(t, f, before, v);
    }
    NotNeeded(t, f, marked0, bits, marked, p);
  }

  lemma NotNeeded(t: Trail, f: Problem, marked0: set<nat>, bits: set<nat>, marked: set<nat>, p: nat)
    requires FineMarks(t, f, marked0, bits, marked) && AllMarked(t, f, marked, p)
    ensures !Needed(t, f, marked0, bits, p)
  {
    forall v, u | Reach(t, f, marked0, p, v)
      ensures !Stops(t, f, marked0, bits, v, u)
    {
      var vs :| Chain(t, f, marked0, vs) && vs[0] == p && vs[|vs| - 1] == v;
      ChainMarked(t, f, marked0, bits, marked, p, vs);
    }
  }

  lemma {:induction false} ChainMarked(t: Trail, f: Problem, marked0: set<nat>, bits: set<nat>, marked: set<nat>, p: nat, vs: seq<nat>)
    requires FineMarks(t, f, marked0, bits, marked) && AllMarked(t, f, marked, p)
    requires Chain(t, f, marked0, vs) && vs[0] == p
    ensures AllMarked(t, f, marked, vs[|vs| - 1])
  {
    var n := |vs| - 1;
    if n > 0 {
      assert vs[..n][|vs[..n]| - 1] == vs[n - 1];
      ChainMarked(t, f, marked0, bits, marked, p, vs[..n]);
      assert vs[n] in marked;
    }
  }

  // ---------- reasons as they are stored ----------

  ghost predicate SaysSame(f: Problem, cr: nat, c: seq<Lit>) {
    cr in f.store && f.store[cr].lits == set l | l in c
  }

  lemma StoreSays(t: Trail, db: Db, n: nat, f: Problem, cr: nat)
    requires BaseOk(t, db, n, f) && cr in db.ca
    ensures SaysSame(f, cr, db.ca[cr].lits)
  {
    hide ListsOk, Attached, ArenaOk, Clean, RootSound, ReasonsOk;
    assert ContentOf(db.ca[cr]) == f.store[cr];
  }

  lemma IsAntecedent(t: Trail, f: Problem, x: nat, cr: nat, c: seq<Lit>, k: nat)
    requires x < |t.reason| && t.reason[x] == Some(cr) && SaysSame(f, cr, c) && k < |c| && c[k].v != x
    requires c[k].v < |t.level| && t.level[c[k].v] > 0
    ensures Antecedent(t, f, x, c[k].v)
  {
    assert c[k] in f.store[cr].lits;
  }

  /** Once every other literal of the reason is marked or at level 0. */
  lemma ReasonRead(t: Trail, f: Problem, x: nat, cr: nat, c: seq<Lit>, marked: set<nat>)
    requires x < |t.reason| && t.reason[x] == Some(cr) && SaysSame(f, cr, c)
    requires forall k :: 0 <= k < |c| && c[k].v != x && c[k].v < |t.level| && t.level[c[k].v] > 0 ==> c[k].v in marked
    ensures AllMarked(t, f, marked, x)
  {
    forall u | Antecedent(t, f, x, u)
      ensures u in marked
    {
      var l :| l in f.store[cr].lits && l.v == u;
      var k :| 0 <= k < |c| && c[k] == l;
    }
  }

  // ---------- what is left of the clause ----------

  /** The first literal and those before i that stay. */
  ghost function Staying(t: Trail, f: Problem, marked: set<nat>, bits: set<nat>, c: seq<Lit>, i: nat): seq<Lit>
    requires 1 <= i <= |c|
  {
    if i == 1 then c[..1]
    else Staying(t, f, marked, bits, c, i - 1) + if Stays(t, f, marked, bits, c[i - 1].v) then [c[i - 1]] else []
  }

  /** Recursive minimisation of c. */
  ghost function DeepMinimised(t: Trail, f: Problem, c: seq<Lit>): seq<Lit>
    requires |c| >= 1
  {
    Staying(t, f, VarsOf(c[1..]), LevelBits(t, c), c, |c|)
  }

  /** Basic minimisation of c: as if no check could go on anywhere. */
  ghost function BasicMinimised(t: Trail, f: Problem, c: seq<Lit>): seq<Lit>
    requires |c| >= 1
  {
    Staying(t, f, VarsOf(c[1..]), {}, c, |c|)
  }

  /** Without passable variables a chain is of no use. */
  lemma BasicNeeds(t: Trail, f: Problem, marked: set<nat>, v: nat)
    ensures Needed(t, f, marked, {}, v) <==> exists u :: Antecedent(t, f, v, u) && u !in marked
  {
    if Needed(t, f, marked, {}, v) {
      var w, u :| Reach(t, f, marked, v, w) && Stops(t, f, marked, {}, w, u);
      var vs :| Chain(t, f, marked, vs) && vs[0] == v && vs[|vs| - 1] == w;
      assert |vs| > 1 ==> vs[1] !in marked && Antecedent(t, f, vs[0], vs[1]);
    }
    if u :| Antecedent(t, f, v, u) && u !in marked {
      ReachSelf(t, f, marked, v);
      assert Stops(t, f, marked, {}, v, u);
    }
  }

  /** In the basic mode an unmarked antecedent decides. */
  lemma BasicMustStay(t: Trail, f: Problem, seen: seq<bool>, x: nat, cr: nat, c: seq<Lit>, k: nat)
    requires x < |t.reason| && t.reason[x] == Some(cr) && SaysSame(f, cr, c) && k < |c|
    requires x < |seen| && seen[x] && c[k].v < |seen| && !seen[c[k].v] && c[k].v < |t.level| && t.level[c[k].v] > 0
    ensures Stays(t, f, Marked(seen), {}, x)
  {
    IsAntecedent(t, f, x, cr, c, k);
    BasicNeeds(t, f, Marked(seen), x);
  }

  lemma BasicMayGo(t: Trail, f: Problem, seen: seq<bool>, x: nat, cr: nat, c: seq<Lit>)
    requires x < |t.reason| && t.reason[x] == Some(cr) && SaysSame(f, cr, c)
    requires forall k :: 0 <= k < |c| && c[k].v != x ==> c[k].v < |seen| == |t.level| && (seen[c[k].v] || t.level[c[k].v] == 0)
    ensures !Stays(t, f, Marked(seen), {}, x)
  {
    ReasonRead(t, f, x, cr, c, Marked(seen));
    BasicNeeds(t, f, Marked(seen), x);
  }

  /** A stored binary clause joins uip with the true literal of v. */
  ghost predicate BinaryDrops(t: Trail, f: Problem, uip: Lit, v: nat) {
    v < |t.assigns| && t.Assigned(v) && exists cr :: BinaryIn(f, cr, uip, t.TrueLit(v))
  }

  ghost predicate BinaryIn(f: Problem, cr: nat, x: Lit, y: Lit) {
    cr in f.store && !f.store[cr].deleted && f.store[cr].lits == {x, y}
  }

  /** v is the variable of a true literal in one of the binary watchers. */
  ghost predicate BlockedBy(t: Trail, ws: seq<Watcher>, v: nat) {
    exists k :: 0 <= k < |ws| && ws[k].blocker.v == v && t.IsTrue(ws[k].blocker)
  }

  /** Exactly the later variables of c that the watchers name have been taken out. */
  ghost predicate TakenOut(t: Trail, c: seq<Lit>, ws: seq<Watcher>, removed: set<nat>)
    requires |c| >= 1
  {
    forall v :: v in removed <==> v in VarsOf(c[1..]) && BlockedBy(t, ws, v)
  }

  lemma TakenNone(t: Trail, c: seq<Lit>)
    requires |c| >= 1
    ensures TakenOut(t, c, [], {})
  {
  }

  lemma TakenNext(t: Trail, c: seq<Lit>, ws: seq<Watcher>, k: nat, removed: set<nat>, flagged: set<nat>)
    requires |c| >= 1 && k < |ws| && TakenOut(t, c, ws[..k], removed) && flagged == VarsOf(c[1..]) - removed
    ensures var imp := ws[k].blocker;
            TakenOut(t, c, ws[..k + 1], if imp.v in flagged && t.IsTrue(imp) then removed + {imp.v} else removed)
  {
    hide VarsOf;
    var more := ws[..k + 1];
    forall v
      ensures BlockedBy(t, more, v) <==> BlockedBy(t, ws[..k], v) || (ws[k].blocker.v == v && t.IsTrue(ws[k].blocker))
    {
      if BlockedBy(t, ws[..k], v) {
        var m :| 0 <= m < k && ws[..k][m].blocker.v == v && t.IsTrue(ws[..k][m].blocker);
        assert more[m].blocker.v == v && t.IsTrue(more[m].blocker);
      }
      if ws[k].blocker.v == v && t.IsTrue(ws[k].blocker) {
        assert more[k].blocker.v == v && t.IsTrue(more[k].blocker);
      }
      if BlockedBy(t, more, v) {
        var m :| 0 <= m < |more| && more[m].blocker.v == v && t.IsTrue(more[m].blocker);
        assert m < k ==> ws[..k][m] == more[m];
      }
    }
  }

  /** The binary watchers of the negated literal are the stored binary clauses with the literal. */
  lemma WatchersSay(t: Trail, db: Db, n: nat, f: Problem, uip: Lit, v: nat)
    requires BaseOk(t, db, n, f) && uip.Neg() in db.bin && uip.v != v
    ensures BlockedBy(t, db.bin[uip.Neg()], v) <==> BinaryDrops(t, f, uip, v)
  {
    hide BaseOk, BinaryIn;
    var p := uip.Neg();
    if BlockedBy(t, db.bin[p], v) {
      var k :| 0 <= k < |db.bin[p]| && db.bin[p][k].blocker.v == v && t.IsTrue(db.bin[p][k].blocker);
      StoredBinary(t, db, n, f, uip, k);
      assert t.TrueLit(v) == db.bin[p][k].blocker;
    }
    if BinaryDrops(t, f, uip, v) {
      var cr :| BinaryIn(f, cr, uip, t.TrueLit(v));
      var k := WatcherOf(t, db, n, f, uip, cr, t.TrueLit(v));
      assert db.bin[p][k].blocker.v == v && t.IsTrue(db.bin[p][k].blocker);
    }
  }

  lemma StoredBinary(t: Trail, db: Db, n: nat, f: Problem, uip: Lit, k: nat)
    requires BaseOk(t, db, n, f) && uip.Neg() in db.bin && k < |db.bin[uip.Neg()]|
    ensures var w := db.bin[uip.Neg()][k]; w.blocker.v < |t.assigns| && BinaryIn(f, w.cref, uip, w.blocker)
  {
    var w := db.bin[uip.Neg()][k];
    hide ListsOk, Attached, Clean, ArenaOk, RootSound, ReasonsOk;
    BinaryWatcher(db.ca, db.bin, n, uip.Neg(), k);
    assert ContentOf(db.ca[w.cref]) == f.store[w.cref];
  }

  lemma WatcherOf(t: Trail, db: Db, n: nat, f: Problem, uip: Lit, cr: nat, y: Lit) returns (k: nat)
    requires BaseOk(t, db, n, f) && uip.Neg() in db.bin && BinaryIn(f, cr, uip, y) && uip.v != y.v
    ensures k < |db.bin[uip.Neg()]| && db.bin[uip.Neg()][k].blocker == y
  {
    hide ListsOk, Clean, RootSound, ReasonsOk;
    assert ContentOf(db.ca[cr]) == f.store[cr];
    var c := db.ca[cr].lits;
    TwoLiterals(db.ca[cr], n, uip, y);
    assert AttachedAt(db.ca[cr], cr, db.bin, Binary);
    assert HasRef(db.bin[uip.Neg()], cr);
    k :| 0 <= k < |db.bin[uip.Neg()]| && db.bin[uip.Neg()][k].cref == cr;
    BinaryWatcher(db.ca, db.bin, n, uip.Neg(), k);
  }

  lemma TwoLiterals(c: ClauseRec, n: nat, x: Lit, y: Lit)
    requires ClauseOk(c, n) && x != y && ContentOf(c).lits == {x, y}
    ensures KindOf(c) == Binary && (c.lits == [x, y] || c.lits == [y, x])
  {
    assert forall l :: l in c.lits ==> l in ContentOf(c).lits;
    assert x in ContentOf(c).lits && y in ContentOf(c).lits;
    assert c.lits[0] in c.lits && c.lits[1] in c.lits;
    var third := if |c.lits| > 2 then c.lits[2] else x;
    assert third in c.lits;
  }

  /** Binary minimisation of c: the first literal, and the later ones that no binary clause drops. */
  ghost predicate BinaryMinimised(t: Trail, f: Problem, c: seq<Lit>, out: seq<Lit>) {
    && |c| >= 1 && |out| >= 1 && out[0] == c[0] && DistinctVars(out)
    && forall l :: l in out <==> l in c && (l == c[0] || !BinaryDrops(t, f, c[0], l.v))
  }

  lemma BinaryOut(t: Trail, db: Db, n: nat, f: Problem, c: seq<Lit>, removed: set<nat>, out: seq<Lit>)
    requires BaseOk(t, db, n, f) && |c| >= 1 && c[0].Neg() in db.bin && DistinctVars(c)
    requires TakenOut(t, c, db.bin[c[0].Neg()], removed)
    requires VarsOf(out) == VarsOf(c) - removed && (forall l :: l in out ==> l in c) && DistinctVars(out)
    requires |out| >= 1 && out[0] == c[0]
    ensures BinaryMinimised(t, f, c, out)
  {
    hide BaseOk, BlockedBy, BinaryDrops;
    forall l | l in c
      ensures l in out <==> l == c[0] || !BinaryDrops(t, f, c[0], l.v)
    {
      if l != c[0] {
        var i :| 0 <= i < |c| && c[i] == l;
        assert c[1..][i - 1] == l && l.v in VarsOf(c[1..]) && l.v in VarsOf(c);
        WatchersSay(t, db, n, f, c[0], l.v);
        InByVariable(c, out, l);
      }
    }
  }

  lemma InByVariable(c: seq<Lit>, out: seq<Lit>, l: Lit)
    requires DistinctVars(c) && l in c && forall x :: x in out ==> x in c
    ensures l in out <==> l.v in VarsOf(out)
  {
    if l.v in VarsOf(out) {
      var k :| 0 <= k < |out| && out[k].v == l.v;
      assert out[k] in c;
    }
  }

  // ---------- the whole analysis ----------

  /** The levels of the literals of c. */
  function LevelsIn(t: Trail, c: seq<Lit>): set<nat> {
    set i | 0 <= i < |c| && c[i].v < |t.level| :: t.level[c[i].v]
  }

  lemma LevelsNext(t: Trail, c: seq<Lit>, i: nat)
    requires i < |c| && c[i].v < |t.level|
    ensures LevelsIn(t, c[..i + 1]) == LevelsIn(t, c[..i]) + {t.level[c[i].v]}
  {
    var d, e := c[..i], c[..i + 1];
    forall l
      ensures l in LevelsIn(t, e) <==> l in LevelsIn(t, d) + {t.level[c[i].v]}
    {
      if l in LevelsIn(t, d) {
        var k :| 0 <= k < |d| && d[k].v < |t.level| && t.level[d[k].v] == l;
        assert e[k] == d[k];
      }
      if l in LevelsIn(t, e) {
        var k :| 0 <= k < |e| && e[k].v < |t.level| && t.level[e[k].v] == l;
        assert k < i ==> d[k] == e[k];
      }
      assert e[i] == c[i];
    }
  }

  /** What the given ccmin-mode makes of the first UIP clause. */
  ghost function MinimisedIn(mode: nat, t: Trail, f: Problem, uip: seq<Lit>): seq<Lit>
    requires |uip| >= 1
  {
    if mode == 2 then DeepMinimised(t, f, uip) else if mode == 1 then BasicMinimised(t, f, uip) else uip
  }

  /** c, or c with its second and another literal exchanged. */
  ghost predicate SecondExchanged(c: seq<Lit>, out: seq<Lit>) {
    if |c| <= 1 then out == c else exists i :: 1 <= i < |c| && out == Swapped(c, 1, i)
  }

  // ---------- the loops ----------

  lemma NothingFine(t: Trail, f: Problem, marked: set<nat>, bits: set<nat>)
    ensures FineMarks(t, f, marked, bits, marked)
  {
  }

  lemma FirstStays(t: Trail, f: Problem, marked: set<nat>, bits: set<nat>, c: seq<Lit>)
    requires |c| >= 1
    ensures Staying(t, f, marked, bits, c, 1) == c[..1]
  {
  }

  lemma NextStays(t: Trail, f: Problem, marked: set<nat>, bits: set<nat>, c: seq<Lit>, i: nat)
    requires 1 <= i < |c|
    ensures Staying(t, f, marked, bits, c, i + 1) ==
            Staying(t, f, marked, bits, c, i) + if Stays(t, f, marked, bits, c[i].v) then [c[i]] else []
  {
  }

  lemma SeenMarked(seen: seq<bool>, v: nat)
    ensures v in Marked(seen) <==> v < |seen| && seen[v]
  {
  }

  lemma FirstOnStack(toclear: seq<Lit>, p: Lit)
    ensures VarsOf(toclear[|toclear|..]) == {} && VarsOf([p]) == {p.v}
  {
    assert toclear[|toclear|..] == [] && [p][0] == p;
  }

  lemma PoppedVars(stack: seq<Lit>)
    requires stack != []
    ensures var x := stack[|stack| - 1]; VarsOf(stack) == VarsOf(stack[..|stack| - 1]) + {x.v}
  {
    var n := |stack| - 1;
    assert stack == stack[..n] + [stack[n]];
    VarsOfAppend(stack[..n], stack[n]);
  }

  lemma PushedVars(added: seq<Lit>, stack: seq<Lit>, p: Lit, x: nat)
    ensures VarsOf(added + [p]) == VarsOf(added) + {p.v}
    ensures VarsOf(stack + [p]) + {x} == VarsOf(stack) + {x} + {p.v}
    ensures VarsOf(stack + [p]) == VarsOf(stack) + {p.v}
  {
    VarsOfAppend(added, p);
    VarsOfAppend(stack, p);
  }

  lemma OneLessUnmarked(seen: seq<bool>, v: nat)
    requires v < |seen| && !seen[v]
    ensures Unmarked(seen[v := true]) < Unmarked(seen)
  {
    assert v in Unmarked(seen);
    assert Unmarked(seen[v := true]) == Unmarked(seen) - {v};
  }

  /** An unmarked literal of the reason above level 0. */
  lemma UnmarkedAntecedent(t: Trail, ca: Arena, f: Problem, n: nat, kept: set<nat>, seen0: seq<bool>, seen: seq<bool>, added: seq<Lit>,
                           stack: seq<Lit>, x: Lit, cr: nat, i: nat)
    requires Popped(t, ca, n, kept, seen0, seen, added, stack, x, cr, i) && cr in ca && 1 <= i < |ca[cr].lits|
    requires SaysSame(f, cr, ca[cr].lits)
    requires var p := ca[cr].lits[i]; p.v < n && !seen[p.v] && t.level[p.v] > 0
    ensures Antecedent(t, f, x.v, ca[cr].lits[i].v) && ca[cr].lits[i].v !in Marked(seen0) + VarsOf(added)
    ensures HasReason(t, x.v)
  {
    SinceVars(seen0, seen, added);
    IsAntecedent(t, f, x.v, cr, ca[cr].lits, i);
  }

  /** The whole reason of x is read. */
  lemma ReadClose(t: Trail, ca: Arena, f: Problem, n: nat, kept: set<nat>, seen0: seq<bool>, seen: seq<bool>, added: seq<Lit>,
                  stack: seq<Lit>, x: Lit, cr: nat, marked0: set<nat>, bits: set<nat>, p: nat)
    requires cr in ca && Popped(t, ca, n, kept, seen0, seen, added, stack, x, cr, |ca[cr].lits|) && SaysSame(f, cr, ca[cr].lits)
    requires Tracking(t, f, marked0, bits, p, Marked(seen0), VarsOf(added), VarsOf(stack) + {x.v})
    ensures Tracking(t, f, marked0, bits, p, Marked(seen0), VarsOf(added), VarsOf(stack))
  {
    SinceVars(seen0, seen, added);
    ReasonRead(t, f, x.v, cr, ca[cr].lits, Marked(seen));
    hide Popped;
    TrackClose(t, f, marked0, bits, p, Marked(seen0), VarsOf(added), VarsOf(stack) + {x.v}, VarsOf(stack), x.v);
  }

  lemma TrackFinished(t: Trail, ca: Arena, f: Problem, n: nat, kept: set<nat>, seen0: seq<bool>, seen: seq<bool>, added: seq<Lit>,
                      stack: seq<Lit>, marked0: set<nat>, bits: set<nat>, p: nat)
    requires Checking(t, ca, n, kept, seen0, seen, added, stack) && stack == []
    requires Tracking(t, f, marked0, bits, p, Marked(seen0), VarsOf(added), VarsOf(stack))
    ensures FineMarks(t, f, marked0, bits, Marked(seen)) && !Needed(t, f, marked0, bits, p)
  {
    assert VarsOf(stack) == {};
    SinceVars(seen0, seen, added);
    TrackDone(t, f, marked0, bits, p, Marked(seen0), VarsOf(added));
  }
}
