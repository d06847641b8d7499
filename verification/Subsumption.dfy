/** Subsumption and self-subsuming resolution between two clauses, with the 32-bit
    abstraction that filters out most pairs. */
module Subsumption {
  import opened Wrappers
  import opened Cnf

  /** lit_Error, lit_Undef, or the literal that can be resolved away. */
  datatype Outcome = Neither | Subset | AllBut(p: Lit)

  // ---------- the abstraction ----------

  /** 1 << (v & 31). */
  function Bit(v: nat): bv32 {
    1 << ((v % 32) as bv6)
  }

  /** One bit per variable, modulo 32. */
  function Abstraction(c: seq<Lit>): bv32 {
    if c == [] then 0 else Abstraction(c[..|c| - 1]) | Bit(c[|c| - 1].v)
  }

  method CalcAbstraction(c: seq<Lit>) returns (abs: bv32)
    ensures abs == Abstraction(c)
  {
    abs := 0;
    for i := 0 to |c|
      invariant abs == Abstraction(c[..i])
    {
      assert c[..i + 1][..i] == c[..i];
      abs := abs | Bit(c[i].v);
    }
    assert c[..|c|] == c;
  }

  /** Every bit of a is set in b. */
  predicate Within(a: bv32, b: bv32) {
    a & !b == 0
  }

  lemma WithinOr(a: bv32, b: bv32, c: bv32)
    requires Within(a, c) && Within(b, c)
    ensures Within(a | b, c)
  {
  }

  lemma WithinMore(a: bv32, b: bv32, c: bv32)
    requires Within(a, b)
    ensures Within(a, b | c) && Within(a, c | b)
  {
  }

  lemma WithinSelf(a: bv32)
    ensures Within(a, a)
  {
  }

  /** The bit of every variable of d is in the abstraction of d. */
  lemma {:induction false} BitWithin(d: seq<Lit>, j: nat)
    requires j < |d|
    ensures Within(Bit(d[j].v), Abstraction(d))
  {
    hide Within, Bit;
    var last := |d| - 1;
    if j < last {
      BitWithin(d[..last], j);
      WithinMore(Bit(d[j].v), Abstraction(d[..last]), Bit(d[last].v));
    } else {
      WithinSelf(Bit(d[last].v));
      WithinMore(Bit(d[last].v), Bit(d[last].v), Abstraction(d[..last]));
    }
  }

  ghost predicate HasVar(d: seq<Lit>, v: nat) {
    exists j :: 0 <= j < |d| && d[j].v == v
  }

  /** Every variable of c occurs in d. */
  ghost predicate VarsWithin(c: seq<Lit>, d: seq<Lit>) {
    forall i :: 0 <= i < |c| ==> HasVar(d, c[i].v)
  }

  /** The filter never rejects a pair whose variables are contained in each other. */
  lemma {:induction false} FilterIsSafe(c: seq<Lit>, d: seq<Lit>)
    requires VarsWithin(c, d)
    ensures Within(Abstraction(c), Abstraction(d))
  {
    if c == [] {
      NothingWithin(Abstraction(d));
    } else {
      hide Within, Bit;
      var last := |c| - 1;
      FilterIsSafe(c[..last], d);
      assert HasVar(d, c[last].v);
      var j :| 0 <= j < |d| && d[j].v == c[last].v;
      BitWithin(d, j);
      WithinOr(Abstraction(c[..last]), Bit(c[last].v), Abstraction(d));
    }
  }

  lemma NothingWithin(a: bv32)
    ensures Within(0, a)
  {
  }

  lemma BitIsSet(v: nat)
    ensures Bit(v) != 0
  {
    assert (v % 32) as bv6 < 32;
  }

  lemma ShiftsApart(a: bv6, b: bv6)
    requires a < 32 && b < 32 && a != b
    ensures (1 as bv32 << a) & (1 << b) == 0
  {
  }

  lemma PlacesApart(k: nat, m: nat)
    requires k < 32 && m < 32 && k != m
    ensures k as bv6 != m as bv6
  {
    assert (k as bv6) as nat == k;
  }

  /** Variables with different remainders have different bits. */
  lemma BitsApart(u: nat, v: nat)
    requires u % 32 != v % 32
    ensures Bit(u) & Bit(v) == 0
  {
    PlacesApart(u % 32, v % 32);
    var a, b := (u % 32) as bv6, (v % 32) as bv6;
    assert a < 32 && b < 32;
    ShiftsApart(a, b);
  }

  ghost predicate HasRemainder(d: seq<Lit>, v: nat) {
    exists j :: 0 <= j < |d| && d[j].v % 32 == v % 32
  }

  lemma AndOr(x: bv32, a: bv32, b: bv32)
    ensures x & (a | b) == (x & a) | (x & b)
  {
  }

  /** The abstraction has exactly the bits of the remainders of its variables. */
  lemma {:induction false} BitIn(d: seq<Lit>, v: nat)
    ensures Bit(v) & Abstraction(d) != 0 <==> HasRemainder(d, v)
  {
    if d != [] {
      var last := |d| - 1;
      BitIn(d[..last], v);
      BitIsSet(v);
      if d[last].v % 32 != v % 32 {
        BitsApart(v, d[last].v);
      }
      hide Bit;
      AndOr(Bit(v), Abstraction(d[..last]), Bit(d[last].v));
      RemainderOf(d, v);
    }
  }

  lemma RemainderOf(d: seq<Lit>, v: nat)
    requires d != []
    ensures HasRemainder(d, v) <==> HasRemainder(d[..|d| - 1], v) || d[|d| - 1].v % 32 == v % 32
  {
    var e := d[..|d| - 1];
    if HasRemainder(e, v) {
      var j :| 0 <= j < |e| && e[j].v % 32 == v % 32;
      assert d[j] == e[j];
    }
    if HasRemainder(d, v) {
      var j :| 0 <= j < |d| && d[j].v % 32 == v % 32;
      assert j < |e| ==> e[j] == d[j];
    }
  }

  /** The filter passes a pair exactly if each variable of c shares its remainder modulo 32 with
      one of d. */
  lemma FilterIsExact(c: seq<Lit>, d: seq<Lit>)
    ensures Within(Abstraction(c), Abstraction(d)) <==> forall i :: 0 <= i < |c| ==> HasRemainder(d, c[i].v)
  {
    if Within(Abstraction(c), Abstraction(d)) {
      forall i | 0 <= i < |c|
        ensures HasRemainder(d, c[i].v)
      {
        BitWithin(c, i);
        BitIsSet(c[i].v);
        WithinBoth(Bit(c[i].v), Abstraction(c), Abstraction(d));
        BitIn(d, c[i].v);
      }
    }
    if forall i :: 0 <= i < |c| ==> HasRemainder(d, c[i].v) {
      RemaindersPass(c, d);
    }
  }

  lemma WithinBoth(x: bv32, a: bv32, b: bv32)
    requires Within(x, a) && Within(a, b) && x != 0
    ensures x & b != 0
  {
  }

  lemma {:induction false} RemaindersPass(c: seq<Lit>, d: seq<Lit>)
    requires forall i :: 0 <= i < |c| ==> HasRemainder(d, c[i].v)
    ensures Within(Abstraction(c), Abstraction(d))
  {
    if c == [] {
      NothingWithin(Abstraction(d));
    } else {
      var last := |c| - 1;
      RemaindersPass(c[..last], d);
      var j :| 0 <= j < |d| && d[j].v % 32 == c[last].v % 32;
      assert Bit(d[j].v) == Bit(c[last].v);
      BitWithin(d, j);
      hide Within, Bit;
      WithinOr(Abstraction(c[..last]), Bit(c[last].v), Abstraction(d));
    }
  }

  // ---------- what the outcome means ----------

  ghost predicate Subsumes(c: seq<Lit>, d: seq<Lit>) {
    forall l :: l in c ==> l in d
  }

  /** All literals of c but p occur in d, and p occurs negated. */
  ghost predicate SubsumesBut(c: seq<Lit>, d: seq<Lit>, p: Lit) {
    p in c && p.Neg() in d && forall l :: l in c && l != p ==> l in d
  }

  ghost predicate Correct(c: seq<Lit>, d: seq<Lit>, r: Outcome) {
    match r
    case Subset => Subsumes(c, d)
    case AllBut(p) => SubsumesBut(c, d, p)
    case Neither => !Subsumes(c, d) && forall p :: !SubsumesBut(c, d, p)
  }

  /** The three outcomes exclude each other, so Correct determines the outcome. */
  lemma CorrectIsExact(c: seq<Lit>, d: seq<Lit>, r: Outcome)
    requires DistinctVars(c) && DistinctVars(d) && Correct(c, d, r)
    ensures r == Subset <==> Subsumes(c, d)
    ensures forall p :: r == AllBut(p) <==> SubsumesBut(c, d, p)
  {
    forall p | SubsumesBut(c, d, p)
      ensures !Subsumes(c, d) && forall q :: SubsumesBut(c, d, q) ==> q == p
    {
      NotBoth(d, p);
      forall q | SubsumesBut(c, d, q)
        ensures q == p
      {
        NotBoth(d, q);
      }
    }
  }

  lemma NotBoth(d: seq<Lit>, p: Lit)
    requires DistinctVars(d) && p.Neg() in d
    ensures p !in d
  {
    var i :| 0 <= i < |d| && d[i] == p.Neg();
    forall j | 0 <= j < |d|
      ensures d[j] != p
    {
      assert j < i || i < j || i == j;
    }
  }

  /** One variable set contains the other if either way of subsumption applies. */
  lemma NeedsVariables(c: seq<Lit>, d: seq<Lit>, p: Lit)
    requires Subsumes(c, d) || SubsumesBut(c, d, p)
    ensures VarsWithin(c, d)
  {
    forall i | 0 <= i < |c|
      ensures HasVar(d, c[i].v)
    {
      assert c[i] in c && (c[i] in d || c[i].Neg() in d);
      var l := if c[i] in d then c[i] else c[i].Neg();
      var j :| 0 <= j < |d| && d[j] == l;
    }
  }

  /** Distinct variables that all occur in d: d is at least as long. */
  lemma {:induction false} NeedsLength(c: seq<Lit>, d: seq<Lit>)
    requires DistinctVars(c) && VarsWithin(c, d)
    ensures |c| <= |d|
    decreases |c|
  {
    if c != [] {
      var last := |c| - 1;
      assert HasVar(d, c[last].v);
      var k :| 0 <= k < |d| && d[k].v == c[last].v;
      var d' := d[..k] + d[k + 1..];
      forall i | 0 <= i < last
        ensures HasVar(d', c[..last][i].v)
      {
        assert HasVar(d, c[i].v);
        var j :| 0 <= j < |d| && d[j].v == c[i].v;
        assert c[i].v != c[last].v;
        assert d'[if j < k then j else j - 1] == d[j];
      }
      NeedsLength(c[..last], d');
    }
  }

  // ---------- the comparison ----------

  /** After i literals of c: each was found in d, at most one of them negated. */
  ghost predicate MatchedSoFar(c: seq<Lit>, d: seq<Lit>, i: nat, ret: Option<Lit>) {
    match ret
    case None => forall k :: 0 <= k < i && k < |c| ==> c[k] in d
    case Some(p) =>
      && p in c[..if i <= |c| then i else |c|] && p.Neg() in d
      && forall k :: 0 <= k < i && k < |c| && c[k] != p ==> c[k] in d
  }

  /** Looks for l in d, or for its negation when no literal has been negated yet. */
  method Search(d: seq<Lit>, l: Lit, ret: Option<Lit>) returns (found: bool, ret': Option<Lit>)
    ensures found && ret' == ret ==> l in d || ret == Some(l)
    ensures found && ret' != ret ==> ret == None && ret' == Some(l) && l.Neg() in d
    ensures !found ==> ret' == ret && l !in d && (ret == None ==> l.Neg() !in d)
  {
    for j := 0 to |d|
      invariant l !in d[..j] && (ret == None ==> l.Neg() !in d[..j])
    {
      assert d[..j + 1] == d[..j] + [d[j]];
      if l == d[j] {
        return true, ret;
      } else if ret == None && l == d[j].Neg() {
        assert l.Neg() == d[j];
        return true, Some(l);
      }
    }
    assert d[..|d|] == d;
    return false, ret;
  }

  /** Clause::subsumes: decides subsumption and self-subsuming resolution exactly. */
  method Compare(c: seq<Lit>, d: seq<Lit>, absC: bv32, absD: bv32) returns (r: Outcome)
    requires DistinctVars(c) && DistinctVars(d) && absC == Abstraction(c) && absD == Abstraction(d)
    ensures Correct(c, d, r)
  {
    if |d| < |c| || absC & !absD != 0 {
      FilteredOut(c, d);
      return Neither;
    }
    var ret: Option<Lit> := None;
    for i := 0 to |c|
      invariant MatchedSoFar(c, d, i, ret)
    {
      var found;
      ghost var before := ret;
      found, ret := Search(d, c[i], ret);
      if !found {
        NotFound(c, d, i, before);
        return Neither;
      }
      MatchedOne(c, d, i, before, ret);
    }
    return Matched(c, d, ret);
  }

  function Matched(c: seq<Lit>, d: seq<Lit>, ret: Option<Lit>): (r: Outcome)
    requires MatchedSoFar(c, d, |c|, ret)
    ensures Correct(c, d, r)
  {
    assert c[..|c|] == c;
    match ret
    case None => Subset
    case Some(p) => AllBut(p)
  }

  lemma FilteredOut(c: seq<Lit>, d: seq<Lit>)
    requires DistinctVars(c) && (|d| < |c| || Abstraction(c) & !Abstraction(d) != 0)
    ensures Correct(c, d, Neither)
  {
    forall p
      ensures !Subsumes(c, d) && !SubsumesBut(c, d, p)
    {
      if Subsumes(c, d) || SubsumesBut(c, d, p) {
        NeedsVariables(c, d, p);
        NeedsLength(c, d);
        FilterIsSafe(c, d);
      }
    }
    assert !Subsumes(c, d) by {
      assert !SubsumesBut(c, d, Lit(0, false));
    }
  }

  lemma MatchedOne(c: seq<Lit>, d: seq<Lit>, i: nat, ret: Option<Lit>, ret': Option<Lit>)
    requires i < |c| && MatchedSoFar(c, d, i, ret)
    requires ret' == ret ==> c[i] in d || ret == Some(c[i])
    requires ret' != ret ==> ret == None && ret' == Some(c[i]) && c[i].Neg() in d
    ensures MatchedSoFar(c, d, i + 1, ret')
  {
    assert c[..i + 1] == c[..i] + [c[i]];
  }

  /** A literal that is missing in d, and cannot be the negated one, rules out both outcomes. */
  lemma NotFound(c: seq<Lit>, d: seq<Lit>, i: nat, ret: Option<Lit>)
    requires i < |c| && DistinctVars(c) && DistinctVars(d) && MatchedSoFar(c, d, i, ret)
    requires c[i] !in d && (ret == None ==> c[i].Neg() !in d)
    ensures Correct(c, d, Neither)
  {
    assert c[i] in c;
    if ret.Some? {
      NotBoth(d, ret.value);
      var k :| 0 <= k < i && c[k] == ret.value;
      assert c[k] in c && c[k].v != c[i].v;
    }
  }

  // ---------- what the preprocessor may do with the outcome ----------

  /** A subsumed clause follows from the subsuming one. */
  lemma SubsumedFollows(m: Model, c: seq<Lit>, d: seq<Lit>)
    requires Subsumes(c, d) && SatClause(m, c)
    ensures SatClause(m, d)
  {
    assert forall i :: 0 <= i < |c| ==> c[i] in c;
    SatSubset(m, c, d);
  }

  /** d is c without the literal l. */
  ghost predicate Without(c: seq<Lit>, d: seq<Lit>, l: Lit) {
    forall x :: x in d <==> x in c && x != l
  }

  lemma NotSelf(c: seq<Lit>, p: Lit, k: nat, d: seq<Lit>)
    requires DistinctVars(c) && p in c && k < |c| && c[k] != p
    ensures c[k] != p.Neg()
  {
    var i :| 0 <= i < |c| && c[i] == p;
    assert i < k || k < i;
  }

  /** Self-subsuming resolution: in the presence of c, the clause d is equivalent to d without
      the negation of p. */
  lemma StrengthenedEquivalent(m: Model, c: seq<Lit>, d: seq<Lit>, p: Lit, d': seq<Lit>)
    requires SubsumesBut(c, d, p) && Without(d, d', p.Neg()) && DistinctVars(c) && DistinctVars(d) && SatClause(m, c)
    ensures SatClause(m, d) <==> SatClause(m, d')
  {
    if SatClause(m, d) {
      var i :| 0 <= i < |d| && Holds(m, d[i]);
      assert d[i] in d;
      if d[i] != p.Neg() {
        SatClauseOf(m, d', d[i]);
      } else {
        NotBoth(d, p);
        var k :| 0 <= k < |c| && Holds(m, c[k]);
        assert c[k] in c && c[k] != p && c[k] in d;
        NotSelf(c, p, k, d);
        SatClauseOf(m, d', c[k]);
      }
    }
    if SatClause(m, d') {
      var i :| 0 <= i < |d'| && Holds(m, d'[i]);
      assert d'[i] in d';
      SatClauseOf(m, d, d'[i]);
    }
  }
}
