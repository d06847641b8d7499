/** Clause minimisation on the value level: which literals may be dropped from the learnt
    clause, and what the in-place loops leave behind. */
module Minimise {
  import opened Wrappers
  import opened Cnf
  import opened TrailState
  import opened ClauseDb
  import opened Cuts
  import opened Invariants
  import opened Propagation
  import opened Visits
  import opened PropagationQueue
  import opened Analysis

  ghost function Unmarked(seen: seq<bool>): set<nat> {
    set v: nat | v < |seen| && !seen[v]
  }

  /** The variables that redundancy checks may visit: they have a reason above level 0. */
  ghost predicate HasReason(t: Trail, v: nat) {
    v < |t.reason| && v < |t.level| && t.Assigned(v) && t.level[v] > 0 && t.reason[v].Some?
  }

  /** Marked variables outside kept are justified, except for those still on the stack. */
  ghost predicate ClosedBut(t: Trail, ca: Arena, kept: set<nat>, marked: set<nat>, open: set<nat>)
    requires t.Sized(|t.assigns|)
  {
    forall v :: v in marked && v !in kept && v !in open ==> Justified(t, ca, marked, v)
  }

  /** seen is seen0 plus the marks recorded on the list since (added). */
  ghost predicate MarksSince(seen0: seq<bool>, seen: seq<bool>, added: seq<Lit>) {
    && |seen| == |seen0|
    && (forall i :: 0 <= i < |added| ==> added[i].v < |seen0| && !seen0[added[i].v])
    && (forall v: nat :: v < |seen| ==> (seen[v] <==> seen0[v] || v in VarsOf(added)))
  }

  /** The state of one redundancy check: stack holds what is still to be justified. */
  ghost predicate Checking(t: Trail, ca: Arena, n: nat, kept: set<nat>, seen0: seq<bool>, seen: seq<bool>,
                           added: seq<Lit>, stack: seq<Lit>) {
    && t.Wf(n) && |seen| == n && ReasonsOk(t, ca)
    && ClosedBut(t, ca, kept, Marked(seen), VarsOf(stack)) && MarksSince(seen0, seen, added)
    && forall i :: 0 <= i < |stack| ==> stack[i].v < n && seen[stack[i].v] && HasReason(t, stack[i].v)
  }

  /** While the reason c of x is read: positions before j are marked or at level 0. */
  ghost predicate ReadUpTo(t: Trail, seen: seq<bool>, c: seq<Lit>, j: nat) {
    forall k :: 1 <= k < j && k < |c| && c[k].v < |t.level| && t.level[c[k].v] > 0 ==> c[k].v in Marked(seen)
  }

  lemma StartCheck(t: Trail, ca: Arena, n: nat, kept: set<nat>, seen: seq<bool>, p: Lit)
    requires t.Wf(n) && |seen| == n && ReasonsOk(t, ca) && Closed(t, ca, kept, Marked(seen))
    requires p.v < n && seen[p.v] && HasReason(t, p.v)
    ensures Checking(t, ca, n, kept - {p.v}, seen, seen, [], [p])
  {
    assert [p][0] == p;
    assert VarsOf([]) == {} && p.v in VarsOf([p]);
    assert forall v :: v in Marked(seen) && v !in kept - {p.v} && v !in VarsOf([p]) ==> v !in kept;
  }

  /** The literal on top of the stack is popped; until its reason is read it stays open. */
  ghost predicate Popped(t: Trail, ca: Arena, n: nat, kept: set<nat>, seen0: seq<bool>, seen: seq<bool>,
                           added: seq<Lit>, stack: seq<Lit>, x: Lit, cr: nat, j: nat) {
    && t.Wf(n) && |seen| == n && ReasonsOk(t, ca)
    && ClosedBut(t, ca, kept, Marked(seen), VarsOf(stack) + {x.v}) && MarksSince(seen0, seen, added)
    && (forall i :: 0 <= i < |stack| ==> stack[i].v < n && seen[stack[i].v] && HasReason(t, stack[i].v))
    && x.v < n && HasReason(t, x.v) && t.reason[x.v] == Some(cr)
    && Live(ca, cr) && ClauseOk(ca[cr], n) && ca[cr].lits[0].v == x.v
    && ReadUpTo(t, seen, ca[cr].lits, j)
  }

  /** After popping and orienting the reason clause, reading can start. */
  lemma PopStack(t: Trail, ca: Arena, n: nat, kept: set<nat>, seen0: seq<bool>, seen: seq<bool>, added: seq<Lit>,
                 stack: seq<Lit>, x: Lit, cr: nat)
    requires Checking(t, ca, n, kept, seen0, seen, added, stack + [x]) && ArenaOk(ca, n)
    requires x.v < |t.reason| && t.reason[x.v] == Some(cr) && Live(ca, cr)
    requires |ca[cr].lits| >= 1 && ca[cr].lits[0].v == x.v
    ensures Popped(t, ca, n, kept, seen0, seen, added, stack, x, cr, 1)
  {
    var st := stack + [x];
    assert st[|stack|] == x;
    assert forall i :: 0 <= i < |stack| ==> st[i] == stack[i];
    VarsOfAppend(stack, x);
    assert ClauseOk(ca[cr], n);
  }

  /** A literal of the reason that is marked already, or at level 0, is fine. */
  lemma ReadMarked(t: Trail, ca: Arena, n: nat, kept: set<nat>, seen0: seq<bool>, seen: seq<bool>, added: seq<Lit>,
                   stack: seq<Lit>, x: Lit, cr: nat, j: nat)
    requires Popped(t, ca, n, kept, seen0, seen, added, stack, x, cr, j) && 1 <= j < |ca[cr].lits|
    requires ca[cr].lits[j].v < n && (seen[ca[cr].lits[j].v] || t.level[ca[cr].lits[j].v] == 0)
    ensures Popped(t, ca, n, kept, seen0, seen, added, stack, x, cr, j + 1)
  {
  }

  /** An unmarked literal with a reason is marked and put on the stack. */
  lemma ReadPush(t: Trail, ca: Arena, n: nat, kept: set<nat>, seen0: seq<bool>, seen: seq<bool>, added: seq<Lit>,
                 stack: seq<Lit>, x: Lit, cr: nat, j: nat)
    requires Popped(t, ca, n, kept, seen0, seen, added, stack, x, cr, j) && 1 <= j < |ca[cr].lits|
    requires var p := ca[cr].lits[j]; p.v < n && !seen[p.v] && HasReason(t, p.v)
    ensures var p := ca[cr].lits[j];
            Popped(t, ca, n, kept, seen0, seen[p.v := true], added + [p], stack + [p], x, cr, j + 1)
  {
    var p := ca[cr].lits[j];
    var seen' := seen[p.v := true];
    VarsOfAppend(added, p);
    VarsOfAppend(stack, p);
    assert Marked(seen') == Marked(seen) + {p.v};
    forall v | v in Marked(seen') && v !in kept && v !in VarsOf(stack + [p]) + {x.v}
      ensures Justified(t, ca, Marked(seen'), v)
    {
      assert Justified(t, ca, Marked(seen), v);
    }
  }

  /** The whole reason has been read: x is justified. */
  lemma ReadDone(t: Trail, ca: Arena, n: nat, kept: set<nat>, seen0: seq<bool>, seen: seq<bool>, added: seq<Lit>,
                 stack: seq<Lit>, x: Lit, cr: nat)
    requires cr in ca && Popped(t, ca, n, kept, seen0, seen, added, stack, x, cr, |ca[cr].lits|)
    ensures Checking(t, ca, n, kept, seen0, seen, added, stack)
  {
    var c := ca[cr].lits;
    assert Justified(t, ca, Marked(seen), x.v) by {
      forall v | v in UpperVars(t, c) - {x.v}
        ensures v in Marked(seen)
      {
        var k :| 0 <= k < |c| && c[k].v == v;
      }
    }
    forall v | v in Marked(seen) && v !in kept && v !in VarsOf(stack)
      ensures Justified(t, ca, Marked(seen), v)
    {
      if v != x.v {
        assert v !in VarsOf(stack) + {x.v};
      }
    }
  }

  /** An empty stack means that p is redundant. */
  lemma CheckDone(t: Trail, ca: Arena, n: nat, kept: set<nat>, seen0: seq<bool>, seen: seq<bool>, added: seq<Lit>)
    requires Checking(t, ca, n, kept, seen0, seen, added, [])
    ensures Closed(t, ca, kept, Marked(seen))
    ensures forall v: nat :: v < |seen| ==> (seen[v] <==> seen0[v] || v in VarsOf(added))
    ensures Marked(seen0) <= Marked(seen)
  {
    assert VarsOf([]) == {};
  }

  /** Reordering a clause does not change what it justifies. */
  lemma OrientedCheck(t: Trail, ca: Arena, n: nat, kept: set<nat>, seen0: seq<bool>, seen: seq<bool>, added: seq<Lit>,
                      stack: seq<Lit>, cr: nat)
    requires Checking(t, ca, n, kept, seen0, seen, added, stack) && cr in ca && |ca[cr].lits| == 2
    requires ReasonsOk(t, SwapWatches(ca, cr))
    ensures Checking(t, SwapWatches(ca, cr), n, kept, seen0, seen, added, stack)
  {
    SwappedJustified(t, ca, cr, Marked(seen));
    var ca' := SwapWatches(ca, cr);
    forall v | v in Marked(seen) && v !in kept && v !in VarsOf(stack)
      ensures Justified(t, ca', Marked(seen), v)
    {
      assert Justified(t, ca, Marked(seen), v);
    }
  }

  lemma SwappedJustified(t: Trail, ca: Arena, cr: nat, marked: set<nat>)
    requires t.Sized(|t.assigns|) && cr in ca && |ca[cr].lits| == 2
    ensures forall v: nat :: Justified(t, ca, marked, v) ==> Justified(t, SwapWatches(ca, cr), marked, v)
  {
    var c, d := ca[cr].lits, Swapped(ca[cr].lits, 0, 1);
    assert d == [c[1], c[0]];
    SameUpper(t, c, d);
  }

  lemma SwappedClosed(t: Trail, ca: Arena, cr: nat, kept: set<nat>, marked: set<nat>)
    requires t.Sized(|t.assigns|) && cr in ca && |ca[cr].lits| == 2 && Closed(t, ca, kept, marked)
    ensures Closed(t, SwapWatches(ca, cr), kept, marked)
  {
    SwappedJustified(t, ca, cr, marked);
  }

  // ---------- the reason of a variable ----------

  /** The reason clause of v: its literal is first, or second in a binary clause and the
      first one is false. */
  lemma ReasonShape(t: Trail, db: Db, n: nat, f: Problem, v: nat)
    requires BaseOk(t, db, n, f) && HasReason(t, v)
    ensures v < n == |t.assigns| && t.Sized(n)
    ensures var cr := t.reason[v].value;
            && Live(db.ca, cr) && ClauseOk(db.ca[cr], n) && !db.ca[cr].oneWatched
            && ReasonFor(t, db.ca[cr].lits, t.TrueLit(v))
            && (db.ca[cr].lits[0].v == v || (|db.ca[cr].lits| == 2 && t.IsFalse(db.ca[cr].lits[0]) && db.ca[cr].lits[1].v == v))
            && (db.ca[cr].lits[0].v == v ==> !t.IsFalse(db.ca[cr].lits[0]))
  {
    hide ListsOk, Attached, Clean, ArenaSound, RootSound;
    assert ReasonOkAt(t, db.ca, v);
    var cr := t.reason[v].value;
    assert ClauseOk(db.ca[cr], n);
    var c := db.ca[cr].lits;
    assert t.IsTrue(t.TrueLit(v));
    if c[0] != t.TrueLit(v) {
      assert FalseBefore(t, c[0], v);
    }
  }

  /** seen differs from seen0 only on variables of the list. */
  ghost predicate MarksBut(seen0: seq<bool>, seen: seq<bool>, added: seq<Lit>) {
    && |seen| == |seen0|
    && (forall i :: 0 <= i < |added| ==> added[i].v < |seen0| && !seen0[added[i].v])
    && (forall v: nat :: v < |seen| && v !in VarsOf(added) ==> seen[v] == seen0[v])
  }

  lemma MarksSinceBut(seen0: seq<bool>, seen: seq<bool>, added: seq<Lit>)
    requires MarksSince(seen0, seen, added)
    ensures MarksBut(seen0, seen, added)
  {
  }

  lemma UndoStep(seen0: seq<bool>, seen: seq<bool>, added: seq<Lit>)
    requires MarksBut(seen0, seen, added) && added != []
    ensures added[0].v < |seen| && MarksBut(seen0, seen[added[0].v := false], added[1..])
  {
    var rest := added[1..];
    assert forall i :: 0 <= i < |rest| ==> rest[i] == added[i + 1];
    VarsOfTail(added);
  }

  lemma VarsOfTail(c: seq<Lit>)
    requires c != []
    ensures VarsOf(c) == {c[0].v} + VarsOf(c[1..])
  {
    var d := c[1..];
    forall v
      ensures v in VarsOf(c) <==> v in {c[0].v} + VarsOf(d)
    {
      if v in VarsOf(d) {
        var i :| 0 <= i < |d| && d[i].v == v;
        assert c[i + 1].v == v;
      }
      if v in VarsOf(c) {
        var i :| 0 <= i < |c| && c[i].v == v;
        assert i > 0 ==> d[i - 1].v == v;
      }
    }
  }

  lemma Undone(seen0: seq<bool>, seen: seq<bool>)
    requires MarksBut(seen0, seen, [])
    ensures seen == seen0
  {
    assert VarsOf([]) == {};
  }

  lemma PoppedSized(t: Trail, ca: Arena, n: nat, kept: set<nat>, seen0: seq<bool>, seen: seq<bool>, added: seq<Lit>,
                    stack: seq<Lit>, x: Lit, cr: nat, j: nat)
    requires Popped(t, ca, n, kept, seen0, seen, added, stack, x, cr, j)
    ensures t.Sized(n) && |seen| == n == |t.assigns| && Live(ca, cr) && ClauseOk(ca[cr], n)
    ensures MarksSince(seen0, seen, added)
  {
  }

  /** The antecedents of a variable are assigned. */
  lemma ReasonLitAssigned(t: Trail, ca: Arena, n: nat, kept: set<nat>, seen0: seq<bool>, seen: seq<bool>, added: seq<Lit>,
                          stack: seq<Lit>, x: Lit, cr: nat, j: nat)
    requires Popped(t, ca, n, kept, seen0, seen, added, stack, x, cr, j) && cr in ca && 1 <= j < |ca[cr].lits|
    ensures ca[cr].lits[j].v < n && t.Assigned(ca[cr].lits[j].v)
  {
    assert ReasonOkAt(t, ca, x.v);
    var c := ca[cr].lits;
    assert c[j].v != c[0].v;
    assert FalseBefore(t, c[j], x.v);
  }

  /** The stack is emptied one literal at a time. */
  lemma TopOfStack(t: Trail, db: Db, n: nat, f: Problem, kept: set<nat>, seen0: seq<bool>, seen: seq<bool>,
                   added: seq<Lit>, stack: seq<Lit>)
    requires BaseOk(t, db, n, f) && stack != []
    requires Checking(t, db.ca, n, kept, seen0, seen, added, stack)
    ensures var x := stack[|stack| - 1];
            && HasReason(t, x.v) && x.v < n == |t.assigns| && t.Sized(n)
            && Live(db.ca, t.reason[x.v].value) && ClauseOk(db.ca[t.reason[x.v].value], n)
            && ReasonFirst(t, db.ca[t.reason[x.v].value], x.v)
            && stack == stack[..|stack| - 1] + [x]
  {
    hide BaseOk, ClosedBut;
    ReasonShape(t, db, n, f, stack[|stack| - 1].v);
  }

  /** The propagated literal is first, or the clause is binary and its first literal false. */
  ghost predicate ReasonFirst(t: Trail, c: ClauseRec, v: nat) {
    && |c.lits| >= 2 && !c.oneWatched
    && (c.lits[0].v == v || (|c.lits| == 2 && t.IsFalse(c.lits[0]) && c.lits[1].v == v))
    && (c.lits[0].v == v ==> !t.IsFalse(c.lits[0]))
  }

  /** Turning the binary reason of the literal on top of the stack. */
  lemma OrientTop(t: Trail, db: Db, n: nat, f: Problem, kept: set<nat>, seen0: seq<bool>, seen: seq<bool>,
                  added: seq<Lit>, stack: seq<Lit>, cr: nat, q: nat, kept0: set<nat>)
    requires BaseOk(t, db, n, f) && PropOk(t, db, q) && Live(db.ca, cr) && !db.ca[cr].oneWatched
    requires Checking(t, db.ca, n, kept, seen0, seen, added, stack) && |db.ca[cr].lits| == 2
    requires t.Sized(|t.assigns|) && Closed(t, db.ca, kept0, Marked(seen0))
    ensures var db' := db.(ca := SwapWatches(db.ca, cr));
            && BaseOk(t, db', n, f) && PropOk(t, db', q)
            && Checking(t, db'.ca, n, kept, seen0, seen, added, stack) && Closed(t, db'.ca, kept0, Marked(seen0))
  {
    hide PropOk, Checking, Closed, DbOk, AllClean;
    SwapBase(t, db, n, f, cr, q);
    OrientedCheck(t, db.ca, n, kept, seen0, seen, added, stack, cr);
    SwappedClosed(t, db.ca, cr, kept0, Marked(seen0));
  }

  lemma SinceVars(seen0: seq<bool>, seen: seq<bool>, added: seq<Lit>)
    requires MarksSince(seen0, seen, added)
    ensures Marked(seen) == Marked(seen0) + VarsOf(added)
  {
    forall v | v in VarsOf(added)
      ensures v in Marked(seen)
    {
      var i :| 0 <= i < |added| && added[i].v == v;
    }
  }

  lemma VarsOfConcat(c: seq<Lit>, d: seq<Lit>)
    ensures VarsOf(c + d) == VarsOf(c) + VarsOf(d)
  {
    var e := c + d;
    forall v
      ensures v in VarsOf(e) <==> v in VarsOf(c) + VarsOf(d)
    {
      if v in VarsOf(c) {
        var i :| 0 <= i < |c| && c[i].v == v;
        assert e[i].v == v;
      }
      if v in VarsOf(d) {
        var i :| 0 <= i < |d| && d[i].v == v;
        assert e[|c| + i].v == v;
      }
    }
  }

  /** The stack is empty: p is redundant, and the list still covers all marks. */
  lemma CheckFinished(t: Trail, ca: Arena, n: nat, kept: set<nat>, seen0: seq<bool>, seen: seq<bool>, toclear: seq<Lit>, top: nat)
    requires top <= |toclear| && Checking(t, ca, n, kept, seen0, seen, toclear[top..], [])
    requires Marked(seen0) <= VarsOf(toclear[..top]) && InRange(toclear[..top], n)
    ensures t.Sized(|t.assigns|) && Closed(t, ca, kept, Marked(seen)) && InRange(toclear, n)
    ensures |seen| == n && Marked(seen0) <= Marked(seen) <= VarsOf(toclear)
  {
    CheckDone(t, ca, n, kept, seen0, seen, toclear[top..]);
    SinceVars(seen0, seen, toclear[top..]);
    VarsOfConcat(toclear[..top], toclear[top..]);
    assert toclear == toclear[..top] + toclear[top..];
  }

  lemma BeginCheck(t: Trail, db: Db, n: nat, f: Problem, kept: set<nat>, seen: seq<bool>, toclear: seq<Lit>, p: Lit)
    requires BaseOk(t, db, n, f) && |seen| == n && t.Sized(|t.assigns|) && Closed(t, db.ca, kept, Marked(seen))
    requires p.v < n && seen[p.v] && HasReason(t, p.v)
    ensures Checking(t, db.ca, n, kept - {p.v}, seen, seen, toclear[|toclear|..], [p])
    ensures toclear[..|toclear|] == toclear
  {
    hide DbOk, AllClean, RootSound, Closed;
    assert toclear[|toclear|..] == [];
    StartCheck(t, db.ca, n, kept, seen, p);
  }

  // ---------- dropping redundant literals ----------

  /** The minimisation loop: out[..j] is kept, out[i..] is still to be checked, and every
      other original literal is justified by marked variables. */
  ghost predicate Minimising(t: Trail, ca: Arena, seen: seq<bool>, toclear: seq<Lit>, learnt: seq<Lit>,
                             out: seq<Lit>, i: nat, j: nat) {
    && t.Sized(|t.assigns|) && |seen| == |t.assigns| && 1 <= j <= i <= |out| == |learnt|
    && out[i..] == learnt[i..] && out[0] == learnt[0]
    && (forall k :: 1 <= k < j ==> out[k] in learnt[1..i])
    && DistinctVars(out[..j])
    && VarsOf(learnt[1..]) <= Marked(seen) <= VarsOf(toclear) && InRange(toclear, |seen|)
    && Closed(t, ca, VarsOf(out[..j]) + VarsOf(learnt[i..]), Marked(seen))
  }

  lemma StartMinimising(t: Trail, ca: Arena, seen: seq<bool>, learnt: seq<Lit>)
    requires t.Sized(|t.assigns|) && |seen| == |t.assigns| && Asserting(t, learnt) && Marked(seen) == VarsOf(learnt[1..])
    ensures Minimising(t, ca, seen, learnt, learnt, learnt, 1, 1)
  {
    assert learnt == learnt[..1] + learnt[1..];
    VarsOfConcat(learnt[..1], learnt[1..]);
  }

  /** The literal at i is kept. */
  lemma MinimiseKeep(t: Trail, ca: Arena, seen: seq<bool>, toclear: seq<Lit>, learnt: seq<Lit>, out: seq<Lit>, i: nat, j: nat)
    requires Minimising(t, ca, seen, toclear, learnt, out, i, j) && i < |out| && DistinctVars(learnt)
    ensures Minimising(t, ca, seen, toclear, learnt, out[j := out[i]], i + 1, j + 1)
  {
    var out' := out[j := out[i]];
    assert out[i] == out[i..][0] == learnt[i];
    assert out'[..j + 1] == out[..j] + [out[i]];
    assert out'[i + 1..] == out[i + 1..] == out[i..][1..] == learnt[i + 1..];
    assert learnt[i..] == [learnt[i]] + learnt[i + 1..];
    VarsOfConcat(out[..j], [out[i]]);
    VarsOfConcat([learnt[i]], learnt[i + 1..]);
    assert learnt[1..i + 1] == learnt[1..i] + [learnt[i]];
    assert DistinctVars(out'[..j + 1]) by {
      forall k | 0 <= k < j
        ensures out'[k].v != out[i].v
      {
        if k > 0 {
          assert out[k] in learnt[1..i];
          var m :| 1 <= m < i && learnt[m] == out[k];
        }
      }
    }
  }

  /** The literal at i is dropped: it is justified. */
  lemma MinimiseDrop(t: Trail, ca: Arena, seen: seq<bool>, toclear: seq<Lit>, learnt: seq<Lit>, out: seq<Lit>, i: nat, j: nat,
                     ca': Arena, seen': seq<bool>, toclear': seq<Lit>)
    requires Minimising(t, ca, seen, toclear, learnt, out, i, j) && i < |out| && DistinctVars(learnt)
    requires |seen'| == |seen| && Marked(seen) <= Marked(seen') <= VarsOf(toclear') && InRange(toclear', |seen|)
    requires Closed(t, ca', VarsOf(out[..j]) + VarsOf(learnt[i..]) - {learnt[i].v}, Marked(seen'))
    ensures Minimising(t, ca', seen', toclear', learnt, out, i + 1, j)
  {
    assert learnt[i..] == [learnt[i]] + learnt[i + 1..];
    assert out[i + 1..] == out[i..][1..] == learnt[i + 1..];
    VarsOfConcat([learnt[i]], learnt[i + 1..]);
    assert learnt[1..i + 1] == learnt[1..i] + [learnt[i]];
    assert VarsOf([learnt[i]]) == {learnt[i].v} by { assert [learnt[i]][0] == learnt[i]; }
    assert VarsOf(out[..j]) + VarsOf(learnt[i..]) - {learnt[i].v} <= VarsOf(out[..j]) + VarsOf(learnt[i + 1..]);
    assert forall v :: v in Marked(seen') && v !in VarsOf(out[..j]) + VarsOf(learnt[i + 1..]) ==>
             v !in VarsOf(out[..j]) + VarsOf(learnt[i..]) - {learnt[i].v};
  }

  /** The marks and the clause database change while a literal is found not redundant. */
  lemma MinimiseSame(t: Trail, ca: Arena, seen: seq<bool>, toclear: seq<Lit>, learnt: seq<Lit>, out: seq<Lit>, i: nat, j: nat, ca': Arena)
    requires Minimising(t, ca, seen, toclear, learnt, out, i, j)
    requires Closed(t, ca', VarsOf(out[..j]) + VarsOf(learnt[i..]), Marked(seen))
    ensures Minimising(t, ca', seen, toclear, learnt, out, i, j)
  {
  }

  /** What is left is asserting, and still a cut. */
  lemma Minimised(t: Trail, db: Db, n: nat, f: Problem, seen: seq<bool>, toclear: seq<Lit>,
                  learnt: seq<Lit>, out: seq<Lit>, j: nat)
    requires BaseOk(t, db, n, f) && Minimising(t, db.ca, seen, toclear, learnt, out, |out|, j)
    requires Asserting(t, learnt) && Cut(f, t, VarsOf(learnt))
    ensures Asserting(t, out[..j]) && Cut(f, t, VarsOf(out[..j]))
    ensures forall l :: l in out[..j] ==> l in learnt
  {
    hide ListsOk, Attached, Clean;
    var c := out[..j];
    assert learnt[|out|..] == [] && VarsOf([]) == {};
    assert learnt == [learnt[0]] + learnt[1..];
    VarsOfConcat([learnt[0]], learnt[1..]);
    assert c[0] == learnt[0] && c[0].v in VarsOf(c);
    assert VarsOf([learnt[0]]) == {learnt[0].v};
    ClosedCut(t, db.ca, f, VarsOf(learnt), VarsOf(c), Marked(seen));
    forall k | 1 <= k < |c|
      ensures Lower(t, c[k]) && t.IsFalse(c[k]) && c[k] in learnt
    {
      assert out[k] in learnt[1..|out|];
      var m :| 1 <= m < |out| && learnt[m] == out[k];
      assert Lower(t, learnt[m]);
    }
  }

  lemma AssertingSized(t: Trail, learnt: seq<Lit>)
    requires Asserting(t, learnt)
    ensures |learnt| >= 1 && DistinctVars(learnt) && forall i :: 0 <= i < |learnt| ==> learnt[i].v < |t.assigns|
  {
  }

  lemma AssertingHasReason(t: Trail, learnt: seq<Lit>, i: nat)
    requires Asserting(t, learnt) && 1 <= i < |learnt| && t.Sized(|t.assigns|)
    ensures learnt[i].v < |t.assigns| && (t.reason[learnt[i].v].Some? ==> HasReason(t, learnt[i].v))
  {
    assert Lower(t, learnt[i]);
  }

  lemma MinimisingAt(t: Trail, ca: Arena, seen: seq<bool>, toclear: seq<Lit>, learnt: seq<Lit>, out: seq<Lit>, i: nat, j: nat)
    requires Minimising(t, ca, seen, toclear, learnt, out, i, j) && 1 <= i < |out|
    ensures t.Sized(|t.assigns|) && |seen| == |t.assigns| && 1 <= j <= i < |out| == |learnt| && out[i] == learnt[i]
    ensures learnt[i].v in Marked(seen) && Marked(seen) <= VarsOf(toclear) && InRange(toclear, |seen|)
    ensures Closed(t, ca, VarsOf(out[..j]) + VarsOf(learnt[i..]), Marked(seen))
  {
    assert out[i] == out[i..][0];
    assert learnt[1..][i - 1] == learnt[i];
    assert learnt[i].v in VarsOf(learnt[1..]);
  }

  lemma MinimisingMarks(t: Trail, ca: Arena, seen: seq<bool>, toclear: seq<Lit>, learnt: seq<Lit>, out: seq<Lit>, i: nat, j: nat)
    requires Minimising(t, ca, seen, toclear, learnt, out, i, j)
    ensures |seen| == |t.assigns| && Marked(seen) <= VarsOf(toclear) && 1 <= j <= |out| && InRange(toclear, |seen|)
  {
  }

  // ---------- the basic mode ----------

  /** Some antecedent of x is neither marked nor at level 0. */
  ghost predicate Blocked(t: Trail, seen: seq<bool>, c: seq<Lit>, from: nat)
    requires t.Sized(|t.assigns|)
  {
    exists k :: from <= k < |c| && c[k].v < |seen| && !seen[c[k].v] && c[k].v < |t.level| && t.level[c[k].v] > 0
  }

  /** Without such an antecedent the literal is justified. */
  lemma BasicRedundant(t: Trail, db: Db, n: nat, f: Problem, seen: seq<bool>, kept: set<nat>, x: Lit)
    requires BaseOk(t, db, n, f) && HasReason(t, x.v) && t.Sized(|t.assigns|) && |seen| == n && x.v < |seen| && seen[x.v]
    requires Closed(t, db.ca, kept, Marked(seen))
    requires t.reason[x.v].value in db.ca
    requires var c := db.ca[t.reason[x.v].value].lits; !Blocked(t, seen, c, if |c| == 2 then 0 else 1)
    ensures Closed(t, db.ca, kept - {x.v}, Marked(seen))
  {
    hide DbOk, AllClean, RootSound;
    ReasonShape(t, db, n, f, x.v);
    var cr := t.reason[x.v].value;
    var c := db.ca[cr].lits;
    assert Justified(t, db.ca, Marked(seen), x.v) by {
      forall v | v in UpperVars(t, c) - {x.v}
        ensures v in Marked(seen)
      {
        var k :| 0 <= k < |c| && c[k].v == v && t.level[v] > 0;
        assert c[k].v < |seen|;
      }
    }
    forall v | v in Marked(seen) && v !in kept - {x.v}
      ensures Justified(t, db.ca, Marked(seen), v)
    {
    }
  }

  // ---------- binary clauses ----------

  /** Variables are flagged when their stamp is the current one. */
  ghost function Flagged(permDiff: seq<nat>, flag: nat): set<nat> {
    set v: nat | v < |permDiff| && permDiff[v] == flag
  }

  /** The binary clauses of the asserting literal have been used to take `removed` out. */
  ghost predicate Trimming(t: Trail, f: Problem, learnt: seq<Lit>, permDiff: seq<nat>, flag: nat, removed: set<nat>) {
    && flag > 0 && |permDiff| == |t.assigns| && Asserting(t, learnt)
    && Cut(f, t, VarsOf(learnt) - removed) && removed <= VarsOf(learnt[1..])
    && Flagged(permDiff, flag) == VarsOf(learnt[1..]) - removed
  }

  lemma TrimNothing(t: Trail, f: Problem, learnt: seq<Lit>, permDiff: seq<nat>, flag: nat)
    requires flag > 0 && Asserting(t, learnt) && Cut(f, t, VarsOf(learnt)) && |permDiff| == |t.assigns|
    requires Flagged(permDiff, flag) == VarsOf(learnt[1..])
    ensures Trimming(t, f, learnt, permDiff, flag, {})
  {
    assert VarsOf(learnt) - {} == VarsOf(learnt) && VarsOf(learnt[1..]) - {} == VarsOf(learnt[1..]);
  }

  lemma FlaggedLeft(t: Trail, f: Problem, learnt: seq<Lit>, permDiff: seq<nat>, flag: nat, removed: set<nat>)
    requires Trimming(t, f, learnt, permDiff, flag, removed) && |learnt| >= 1
    ensures Flagged(permDiff, flag) == VarsOf(learnt[1..]) - removed
  {
  }

  lemma TrimStep(t: Trail, db: Db, n: nat, f: Problem, learnt: seq<Lit>, permDiff: seq<nat>, flag: nat, removed: set<nat>,
                 p: Lit, k: nat)
    requires BaseOk(t, db, n, f) && Trimming(t, f, learnt, permDiff, flag, removed)
    requires p == learnt[0].Neg() && p in db.bin && k < |db.bin[p]|
    requires var imp := db.bin[p][k].blocker; imp.v < |permDiff| && permDiff[imp.v] == flag && t.IsTrue(imp)
    ensures var imp := db.bin[p][k].blocker;
            && Trimming(t, f, learnt, permDiff[imp.v := flag - 1], flag, removed + {imp.v})
            && imp.v !in removed
  {
    hide ListsOk, ArenaOk, Attached, Clean, ReasonsOk, ArenaSound, Asserting, Cut;
    var w := db.bin[p][k];
    var imp := w.blocker;
    BinaryWatcher(db.ca, db.bin, n, p, k);
    var c := db.ca[w.cref].lits;
    Sound(db.ca, f, w.cref);
    assert imp.v in Flagged(permDiff, flag);
    FirstIsFalse(t, learnt);
    var uip := learnt[0].v;
    assert t.TrueLit(imp.v) == imp && t.TrueLit(uip) == p;
    assert forall l :: l in c ==> l == t.TrueLit(uip).Neg() || l == t.TrueLit(imp.v);
    FirstNotRest(learnt);
    BinaryCut(t, f, VarsOf(learnt) - removed, uip, imp.v, c);
    assert VarsOf(learnt) - removed - {imp.v} == VarsOf(learnt) - (removed + {imp.v});
    assert Flagged(permDiff[imp.v := flag - 1], flag) == Flagged(permDiff, flag) - {imp.v};
  }

  lemma Sound(ca: Arena, f: Problem, cr: nat)
    requires ArenaSound(ca, f) && cr in ca
    ensures Entails(f.clauses, ca[cr].lits)
  {
  }

  lemma FirstIsFalse(t: Trail, learnt: seq<Lit>)
    requires Asserting(t, learnt)
    ensures |learnt| >= 1 && t.IsFalse(learnt[0]) && learnt[0].v in VarsOf(learnt) && DistinctVars(learnt)
  {
  }

  lemma FirstNotRest(learnt: seq<Lit>)
    requires |learnt| >= 1 && DistinctVars(learnt)
    ensures learnt[0].v !in VarsOf(learnt[1..])
  {
    forall i | 0 <= i < |learnt[1..]|
      ensures learnt[1..][i].v != learnt[0].v
    {
      assert learnt[1..][i] == learnt[i + 1];
    }
  }

  /** A sequence without repeated variables has as many variables as entries. */
  lemma {:induction false} DistinctCount(c: seq<Lit>)
    requires DistinctVars(c)
    ensures |VarsOf(c)| == |c|
    decreases |c|
  {
    if c == [] {
      assert VarsOf(c) == {};
    } else {
      FirstNotRest(c);
      VarsOfTail(c);
      DistinctCount(c[1..]);
    }
  }

  /** The partition loop: before i only flagged literals, after l only removed ones. */
  ghost predicate Partition(learnt: seq<Lit>, out: seq<Lit>, flagged: set<nat>, i: nat, l: nat) {
    && |out| == |learnt| && 1 <= i <= l + 1 <= |out| && DistinctVars(out) && VarsOf(out) == VarsOf(learnt)
    && out[0] == learnt[0] && (forall x :: x in out ==> x in learnt)
    && (forall k :: 1 <= k < i ==> out[k].v in flagged)
    && (forall k :: l < k < |out| ==> out[k].v !in flagged)
  }

  lemma SwappedVars(c: seq<Lit>, i: nat, j: nat)
    requires i < |c| && j < |c| && DistinctVars(c)
    ensures VarsOf(Swapped(c, i, j)) == VarsOf(c) && DistinctVars(Swapped(c, i, j))
    ensures forall x :: x in Swapped(c, i, j) ==> x in c
  {
    SwappedReorders(c, i, j);
    var d := Swapped(c, i, j);
    forall v
      ensures v in VarsOf(d) <==> v in VarsOf(c)
    {
      if v in VarsOf(c) {
        var k :| 0 <= k < |c| && c[k].v == v;
        assert c[k] in d;
        var m :| 0 <= m < |d| && d[m] == c[k];
      }
      if v in VarsOf(d) {
        var k :| 0 <= k < |d| && d[k].v == v;
        assert d[k] in c;
        var m :| 0 <= m < |c| && c[m] == d[k];
      }
    }
  }

  /** The literals set aside so far are removed ones, so there are at most nb of them. */
  lemma SetAside(learnt: seq<Lit>, out: seq<Lit>, flagged: set<nat>, removed: set<nat>, i: nat, l: nat)
    requires Partition(learnt, out, flagged, i, l) && DistinctVars(learnt)
    requires VarsOf(learnt[1..]) == flagged + removed && learnt[0].v !in flagged
    ensures |out| - 1 - l <= |removed|
  {
    var aside := out[l + 1..];
    assert DistinctVars(aside);
    DistinctCount(aside);
    FirstNotRest(out);
    VarsOfTail(out);
    VarsOfTail(learnt);
    FirstNotRest(learnt);
    assert VarsOf(aside) <= removed by {
      forall v | v in VarsOf(aside)
        ensures v in removed
      {
        var k :| 0 <= k < |aside| && aside[k].v == v;
        assert aside[k] == out[l + 1 + k];
        assert out[l + 1 + k] == out[1..][l + k];
        assert v in VarsOf(out[1..]);
      }
    }
    SubsetSize(VarsOf(aside), removed);
  }

  /** In the end the part before the cut holds exactly the literals that stay. */
  lemma PartitionExact(learnt: seq<Lit>, out: seq<Lit>, flagged: set<nat>, removed: set<nat>, i: nat, l: nat)
    requires Partition(learnt, out, flagged, i, l) && DistinctVars(learnt) && |learnt| >= 1
    requires VarsOf(learnt[1..]) == flagged + removed && flagged !! removed && learnt[0].v !in flagged && learnt[0].v !in removed
    requires i == |out| - |removed|
    ensures VarsOf(out[..i]) == VarsOf(learnt) - removed && DistinctVars(out[..i])
  {
    var c := out[..i];
    DistinctCount(c);
    DistinctCount(learnt);
    VarsOfTail(learnt);
    PrefixStays(learnt, out, flagged, removed, i, l);
    assert removed <= VarsOf(learnt);
    assert |VarsOf(learnt) - removed| == |learnt| - |removed|;
    SameSizeSubset(VarsOf(c), VarsOf(learnt) - removed);
  }

  lemma PrefixStays(learnt: seq<Lit>, out: seq<Lit>, flagged: set<nat>, removed: set<nat>, i: nat, l: nat)
    requires Partition(learnt, out, flagged, i, l) && flagged !! removed && learnt[0].v !in removed
    ensures VarsOf(out[..i]) <= VarsOf(learnt) - removed
  {
    forall k | 0 <= k < i
      ensures out[k].v in VarsOf(learnt) - removed
    {
      assert out[k].v in VarsOf(out);
    }
  }

  lemma SameSizeSubset<T>(a: set<T>, b: set<T>)
    requires a <= b && |a| == |b|
    ensures a == b
  {
    assert b == a + (b - a);
    assert |b - a| == 0;
  }

  /** The trimmed clause is asserting, and a cut. */
  lemma Trimmed(t: Trail, f: Problem, learnt: seq<Lit>, out: seq<Lit>, vs: set<nat>)
    requires Asserting(t, learnt) && Cut(f, t, vs) && VarsOf(out) == vs && DistinctVars(out)
    requires |out| >= 1 && out[0] == learnt[0] && forall x :: x in out ==> x in learnt
    ensures Asserting(t, out)
  {
    forall i | 1 <= i < |out|
      ensures Lower(t, out[i]) && t.IsFalse(out[i])
    {
      assert out[i] in learnt;
      var m :| 0 <= m < |learnt| && learnt[m] == out[i];
      assert m != 0;
    }
  }

  // ---------- the backtrack level ----------

  /** The learnt clause as handed to the search: the second literal has the highest level
      below the current one, and that is the level to return to. */
  ghost predicate Learnt(t: Trail, learnt: seq<Lit>, bt: nat) {
    && Asserting(t, learnt) && bt < |t.lim|
    && (|learnt| == 1 ==> bt == 0)
    && (|learnt| > 1 ==> t.level[learnt[1].v] == bt && bt > 0)
    && (forall i :: 1 <= i < |learnt| ==> t.level[learnt[i].v] <= bt)
  }

  lemma SwapSecond(t: Trail, f: Problem, learnt: seq<Lit>, i: nat)
    requires Asserting(t, learnt) && Cut(f, t, VarsOf(learnt)) && 1 <= i < |learnt|
    requires forall k :: 1 <= k < |learnt| ==> learnt[k].v < |t.level| && learnt[i].v < |t.level| && t.level[learnt[k].v] <= t.level[learnt[i].v]
    ensures learnt[i].v < |t.level|
    ensures Learnt(t, Swapped(learnt, 1, i), t.level[learnt[i].v]) && Cut(f, t, VarsOf(Swapped(learnt, 1, i)))
  {
    SwappedVars(learnt, 1, i);
    var out := Swapped(learnt, 1, i);
    assert Lower(t, learnt[i]);
    forall k | 1 <= k < |out|
      ensures Lower(t, out[k]) && t.level[out[k].v] <= t.level[learnt[i].v]
    {
      assert Lower(t, learnt[k]) && Lower(t, learnt[1]);
    }
  }

  // ---------- steps of the partition loop ----------

  lemma PartitionStart(t: Trail, f: Problem, learnt: seq<Lit>, permDiff: seq<nat>, flag: nat, removed: set<nat>)
    requires Trimming(t, f, learnt, permDiff, flag, removed)
    ensures |learnt| >= 1 && DistinctVars(learnt) && |permDiff| == |t.assigns|
    ensures Partition(learnt, learnt, Flagged(permDiff, flag), 1, |learnt| - 1)
    ensures Flagged(permDiff, flag) !! removed && VarsOf(learnt[1..]) == Flagged(permDiff, flag) + removed
    ensures learnt[0].v !in Flagged(permDiff, flag) && learnt[0].v !in removed
    ensures |removed| < |learnt|
    ensures forall l :: l in learnt ==> l.v < |permDiff|
  {
    FirstNotRest(learnt);
    DistinctCount(learnt);
    VarsOfTail(learnt);
    SubsetSize(removed, VarsOf(learnt[1..]));
    DistinctRest(learnt);
    DistinctCount(learnt[1..]);
  }

  lemma DistinctRest(c: seq<Lit>)
    requires |c| >= 1 && DistinctVars(c)
    ensures DistinctVars(c[1..])
  {
  }

  lemma PartitionBounds(t: Trail, learnt: seq<Lit>, out: seq<Lit>, flagged: set<nat>, removed: set<nat>, i: nat, l: nat)
    requires Partition(learnt, out, flagged, i, l) && |learnt| >= 1 && DistinctVars(learnt)
    requires VarsOf(learnt[1..]) == flagged + removed && learnt[0].v !in flagged && i < |out| - |removed|
    ensures i <= l < |out| && out[i] in learnt
  {
    SetAside(learnt, out, flagged, removed, i, l);
  }

  lemma PartitionSwap(learnt: seq<Lit>, out: seq<Lit>, flagged: set<nat>, i: nat, l: nat)
    requires Partition(learnt, out, flagged, i, l) && i <= l < |out| && out[i].v !in flagged
    ensures Partition(learnt, Swapped(out, i, l), flagged, i, l - 1)
  {
    SwappedVars(out, i, l);
  }

  lemma PartitionSkip(learnt: seq<Lit>, out: seq<Lit>, flagged: set<nat>, i: nat, l: nat)
    requires Partition(learnt, out, flagged, i, l) && i <= l && i < |out| && out[i].v in flagged
    ensures Partition(learnt, out, flagged, i + 1, l)
  {
  }

  lemma PartitionEnd(t: Trail, f: Problem, learnt: seq<Lit>, permDiff: seq<nat>, flag: nat, removed: set<nat>,
                     out: seq<Lit>, i: nat, l: nat)
    requires Trimming(t, f, learnt, permDiff, flag, removed)
    requires Partition(learnt, out, Flagged(permDiff, flag), i, l) && i <= |out|
    requires VarsOf(out[..i]) == VarsOf(learnt) - removed && DistinctVars(out[..i])
    ensures Asserting(t, out[..i]) && Cut(f, t, VarsOf(out[..i])) && forall x :: x in out[..i] ==> x in learnt
  {
    Trimmed(t, f, learnt, out[..i], VarsOf(learnt) - removed);
  }

  lemma BinaryDomain(t: Trail, db: Db, n: nat, f: Problem, learnt: seq<Lit>)
    requires BaseOk(t, db, n, f) && Asserting(t, learnt)
    ensures |learnt| >= 1 && learnt[0].Neg() in db.bin
  {
  }

  lemma BlockerKnown(t: Trail, db: Db, n: nat, f: Problem, p: Lit, k: nat)
    requires BaseOk(t, db, n, f) && p in db.bin && k < |db.bin[p]|
    ensures db.bin[p][k].blocker.v < n == |t.assigns|
  {
    hide Attached, ArenaSound, RootSound, ReasonsOk;
    BinaryWatcher(db.ca, db.bin, n, p, k);
  }
}
