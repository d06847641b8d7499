/** The assignment stack of the solver as a value, and what keeps it consistent. */
module TrailState {
  import opened Wrappers
  import opened Cnf

  datatype LBool = LTrue | LFalse | LUndef

  function Value(assigns: seq<LBool>, l: Lit): LBool
    requires l.v < |assigns|
  {
    match assigns[l.v]
    case LUndef => LUndef
    case LTrue => if l.neg then LFalse else LTrue
    case LFalse => if l.neg then LTrue else LFalse
  }

  /** trail, trail_lim, assigns and vardata. pos is for the proofs: it locates each assigned
      variable on the trail. */
  datatype Trail = Trail(
    lits: seq<Lit>,
    lim: seq<nat>,
    assigns: seq<LBool>,
    level: seq<nat>,
    reason: seq<Option<nat>>,
    pos: seq<nat>)
  {
    ghost predicate IsTrue(l: Lit) { l.v < |assigns| && Value(assigns, l) == LTrue }

    ghost predicate IsFalse(l: Lit) { l.v < |assigns| && Value(assigns, l) == LFalse }

    ghost predicate IsUndef(l: Lit) { l.v < |assigns| && Value(assigns, l) == LUndef }

    ghost predicate Assigned(v: nat) { v < |assigns| && assigns[v] != LUndef }

    /** The true literal of an assigned variable. */
    function TrueLit(v: nat): Lit
      requires v < |assigns|
    {
      Lit(v, assigns[v] == LFalse)
    }

    predicate Sized(n: nat) {
      |assigns| == n && |level| == n && |reason| == n && |pos| == n
    }

    /** The trail lists exactly the assigned variables, and pos locates them. */
    ghost predicate Indexed()
      requires |assigns| == |pos|
    {
      && (forall i :: 0 <= i < |lits| ==> IsTrue(lits[i]) && pos[lits[i].v] == i)
      && (forall v :: 0 <= v < |assigns| && assigns[v] != LUndef ==> pos[v] < |lits| && lits[pos[v]].v == v)
    }

    ghost predicate Limits() {
      && (forall k :: 0 <= k < |lim| ==> lim[k] <= |lits|)
      && (forall j, k :: 0 <= j <= k < |lim| ==> lim[j] <= lim[k])
    }

    /** The level of v is the number of decision levels opened before v was assigned. */
    ghost predicate Levelled(v: nat)
      requires v < |level| && v < |pos|
    {
      && level[v] <= |lim|
      && (level[v] > 0 ==> lim[level[v] - 1] <= pos[v])
      && (level[v] < |lim| ==> pos[v] < lim[level[v]])
    }

    ghost predicate Wf(n: nat) {
      && Sized(n) && Indexed() && Limits()
      && forall v :: 0 <= v < n && assigns[v] != LUndef ==> Levelled(v)
    }

    function Push(p: Lit, from: Option<nat>): Trail
      requires p.v < |assigns| && Sized(|assigns|)
    {
      Trail(lits + [p], lim, assigns[p.v := if p.neg then LFalse else LTrue], level[p.v := |lim|],
            reason[p.v := from], pos[p.v := |lits|])
    }

    function NewLevel(): Trail {
      this.(lim := lim + [|lits|])
    }

    /** What is left after backtracking to level k: exactly the literals assigned up to that level. */
    function Cancel(k: nat): Trail
      requires Sized(|assigns|) && k < |lim| && lim[k] <= |lits|
    {
      Trail(lits[..lim[k]], lim[..k],
            seq(|assigns|, v requires 0 <= v < |assigns| =>
              if assigns[v] != LUndef && pos[v] >= lim[k] then LUndef else assigns[v]),
            level, reason, pos)
    }
  }

  /** u continues t by propagation: nothing assigned in t has changed, no level was opened or
      closed, and what is new has a reason clause. */
  ghost predicate Extends(t: Trail, u: Trail) {
    && u.lim == t.lim && t.lits <= u.lits && |u.assigns| == |t.assigns|
    && (forall v: nat :: t.Assigned(v) ==> SameVar(t, u, v))
    && (forall v: nat :: u.Assigned(v) && !t.Assigned(v) ==> v < |u.reason| && u.reason[v].Some?)
  }

  ghost predicate SameVar(t: Trail, u: Trail, v: nat) {
    && v < |t.level| == |u.level| && v < |t.pos| == |u.pos| && v < |t.assigns| == |u.assigns|
    && v < |t.reason| == |u.reason|
    && u.assigns[v] == t.assigns[v] && u.level[v] == t.level[v] && u.pos[v] == t.pos[v] && u.reason[v] == t.reason[v]
  }

  lemma ExtendsReflexive(t: Trail)
    requires t.Sized(|t.assigns|)
    ensures Extends(t, t)
  {
  }

  lemma ExtendsTransitive(t: Trail, u: Trail, w: Trail)
    requires Extends(t, u) && Extends(u, w)
    ensures Extends(t, w)
  {
    forall v: nat | t.Assigned(v)
      ensures SameVar(t, w, v)
    {
      assert SameVar(t, u, v) && u.Assigned(v) && SameVar(u, w, v);
    }
    forall v: nat | w.Assigned(v) && !t.Assigned(v)
      ensures v < |w.reason| && w.reason[v].Some?
    {
      assert u.Assigned(v) ==> SameVar(u, w, v);
    }
  }

  lemma PushExtends(t: Trail, n: nat, p: Lit, from: Option<nat>)
    requires t.Sized(n) && p.v < n && t.IsUndef(p) && from.Some?
    ensures Extends(t, t.Push(p, from))
  {
  }

  lemma PushWf(t: Trail, n: nat, p: Lit, from: Option<nat>)
    requires t.Wf(n) && p.v < n && t.IsUndef(p)
    ensures t.Push(p, from).Wf(n)
    ensures t.Push(p, from).IsTrue(p)
    ensures forall l: Lit :: t.IsTrue(l) ==> t.Push(p, from).IsTrue(l)
    ensures forall l: Lit :: t.IsFalse(l) ==> t.Push(p, from).IsFalse(l)
    ensures forall l: Lit :: l.v != p.v && t.IsUndef(l) ==> t.Push(p, from).IsUndef(l)
  {
    var u := t.Push(p, from);
    forall i | 0 <= i < |u.lits|
      ensures u.IsTrue(u.lits[i]) && u.pos[u.lits[i].v] == i
    {
      if i < |t.lits| {
        assert u.lits[i] == t.lits[i] && t.IsTrue(t.lits[i]);
      }
    }
    forall v | 0 <= v < n && u.assigns[v] != LUndef
      ensures u.pos[v] < |u.lits| && u.lits[u.pos[v]].v == v && u.Levelled(v)
    {
      if v != p.v {
        assert t.Levelled(v);
      } else if |t.lim| > 0 {
        assert u.lim[|t.lim| - 1] <= |t.lits|;
      }
    }
  }

  lemma NewLevelWf(t: Trail, n: nat)
    requires t.Wf(n)
    ensures t.NewLevel().Wf(n)
  {
    var u := t.NewLevel();
    forall v | 0 <= v < n && u.assigns[v] != LUndef
      ensures u.Levelled(v)
    {
      assert t.Levelled(v);
    }
  }

  lemma CancelWf(t: Trail, n: nat, k: nat)
    requires t.Wf(n) && k < |t.lim|
    ensures t.Cancel(k).Wf(n)
    ensures forall v: nat :: v < n ==> (t.Cancel(k).Assigned(v) <==> t.Assigned(v) && t.level[v] <= k)
    ensures forall v: nat :: t.Cancel(k).Assigned(v) ==> t.Cancel(k).assigns[v] == t.assigns[v]
  {
    var u := t.Cancel(k);
    forall v: nat | v < n
      ensures u.Assigned(v) <==> t.Assigned(v) && t.level[v] <= k
    {
      if t.Assigned(v) {
        assert t.Levelled(v);
        if t.level[v] > k {
          assert t.lim[k] <= t.lim[t.level[v] - 1];
        } else {
          assert t.pos[v] < t.lim[t.level[v]] <= t.lim[k];
        }
      }
    }
    forall i | 0 <= i < |u.lits|
      ensures u.IsTrue(u.lits[i]) && u.pos[u.lits[i].v] == i
    {
      assert u.lits[i] == t.lits[i] && t.IsTrue(t.lits[i]);
    }
    forall v | 0 <= v < n && u.assigns[v] != LUndef
      ensures u.pos[v] < |u.lits| && u.lits[u.pos[v]].v == v && u.Levelled(v)
    {
      assert t.Levelled(v) && u.Assigned(v);
    }
  }

  /** Earlier on the trail means no higher level. */
  lemma EarlierIsNoHigher(t: Trail, n: nat, u: nat, v: nat)
    requires t.Wf(n) && t.Assigned(u) && t.Assigned(v) && t.pos[u] <= t.pos[v]
    ensures t.level[u] <= t.level[v]
  {
    assert t.Levelled(u) && t.Levelled(v);
  }

  ghost function Upto(n: nat): (s: set<nat>)
    ensures |s| == n && forall v: nat :: v in s <==> v < n
  {
    if n == 0 then {} else Upto(n - 1) + {n - 1}
  }

  /** The variables of a sequence that repeats none. */
  ghost function VarSet(lits: seq<Lit>, n: nat, pos: seq<nat>): (s: set<nat>)
    requires |pos| == n
    requires forall i :: 0 <= i < |lits| ==> lits[i].v < n && pos[lits[i].v] == i
    ensures |s| == |lits|
    ensures forall v: nat :: v in s ==> v < n && pos[v] < |lits|
  {
    if lits == [] then {} else VarSet(lits[..|lits| - 1], n, pos) + {lits[|lits| - 1].v}
  }

  lemma SubsetSize<T>(a: set<T>, b: set<T>)
    requires a <= b
    ensures |a| <= |b|
  {
    assert b == a + (b - a);
  }

  /** The trail holds each variable at most once. */
  lemma TrailFits(t: Trail, n: nat)
    requires t.Wf(n)
    ensures |t.lits| <= n
  {
    assert forall i :: 0 <= i < |t.lits| ==> t.IsTrue(t.lits[i]) && t.lits[i].v < n;
    SubsetSize(VarSet(t.lits, n, t.pos), Upto(n));
  }

  // ---------- undoing one assignment after the other ----------

  /** The assignments that remain once the trail entries from c on are undone. */
  function Unassigned(t: Trail, c: nat): seq<LBool>
    requires t.Sized(|t.assigns|)
  {
    seq(|t.assigns|, v requires 0 <= v < |t.assigns| =>
      if t.assigns[v] != LUndef && t.pos[v] >= c then LUndef else t.assigns[v])
  }

  lemma NothingUnassigned(t: Trail, n: nat)
    requires t.Wf(n)
    ensures Unassigned(t, |t.lits|) == t.assigns
  {
  }

  lemma UnassignStep(t: Trail, n: nat, c: nat)
    requires t.Wf(n) && c < |t.lits|
    ensures t.lits[c].v < n && t.pos[t.lits[c].v] == c && t.IsTrue(t.lits[c])
    ensures Unassigned(t, c) == Unassigned(t, c + 1)[t.lits[c].v := LUndef]
    ensures forall v: nat :: t.Assigned(v) && t.pos[v] == c ==> v == t.lits[c].v
    ensures t.TrueLit(t.lits[c].v) == t.lits[c]
  {
    assert t.IsTrue(t.lits[c]);
    var a, b := Unassigned(t, c), Unassigned(t, c + 1)[t.lits[c].v := LUndef];
    forall v | 0 <= v < n
      ensures a[v] == b[v]
    {
    }
  }
}
