/** The reconstruction stack of variable elimination: packed records, and the backward pass
    that extends a model to the eliminated variables. */
module Lifting {
  import opened Cnf
  import opened TrailState
  import opened Propagation
  import opened ProblemClauses

  /** A record: a clause whose first literal belongs to the eliminated variable. */
  type Record = seq<Lit>

  // ---------- the packed form ----------

  function Ints(c: seq<Lit>): seq<nat> {
    seq(|c|, i requires 0 <= i < |c| => ToInt(c[i]))
  }

  /** The records one after the other, each followed by its length. */
  function Packed(recs: seq<Record>): seq<nat> {
    if recs == [] then [] else Packed(recs[..|recs| - 1]) + Ints(recs[|recs| - 1]) + [|recs[|recs| - 1]|]
  }

  lemma {:induction false} PackedConcat(a: seq<Record>, b: seq<Record>)
    ensures Packed(a + b) == Packed(a) + Packed(b)
    decreases |b|
  {
    if b == [] {
      assert a + b == a;
    } else {
      var last := |b| - 1;
      assert (a + b)[..|a + b| - 1] == a + b[..last];
      PackedConcat(a, b[..last]);
    }
  }

  lemma PackedOne(recs: seq<Record>, r: Record)
    ensures Packed(recs + [r]) == Packed(recs) + Ints(r) + [|r|]
  {
    assert (recs + [r])[..|recs|] == recs;
  }

  /** Pushes the unit record of x. */
  method MkElimUnit(elimclauses: seq<nat>, x: Lit, ghost recs: seq<Record>) returns (e: seq<nat>)
    requires elimclauses == Packed(recs)
    ensures e == Packed(recs + [[x]])
  {
    PackedOne(recs, [x]);
    e := elimclauses + [ToInt(x)];
    e := e + [1];
  }

  /** Pushes a clause with its literal of v in front. */
  method MkElimClause(elimclauses: seq<nat>, v: nat, c: seq<Lit>, ghost recs: seq<Record>)
    returns (e: seq<nat>, ghost r: Record)
    requires elimclauses == Packed(recs) && DistinctVars(c) && exists i :: 0 <= i < |c| && c[i].v == v
    ensures |e| == |elimclauses| + |c| + 1 && e[..|elimclauses|] == elimclauses
    ensures ToLit(e[|elimclauses|]).v == v && e[|e| - 1] == |c|
    ensures e == Packed(recs + [r]) && Reordered(c, r) && r[0].v == v
  {
    var first := |elimclauses|;
    var vpos := 0;
    ghost var k :| 0 <= k < |c| && c[k].v == v;
    e := elimclauses;
    for i := 0 to |c|
      invariant |e| == first + i && e[..first] == elimclauses
      invariant forall j :: 0 <= j < i ==> e[first + j] == ToInt(c[j])
      invariant k < i ==> vpos == first + k
    {
      e := e + [ToInt(c[i])];
      if c[i].v == v {
        vpos := i + first;
      }
    }
    SwappedReorders(c, 0, k);
    r := Swapped(c, 0, k);
    var tmp := e[vpos];
    e := e[vpos := e[first]];
    e := e[first := tmp];
    assert e == elimclauses + Ints(r);
    PackingRoundTrip(r[0], 0);
    e := e + [|c|];
    PackedOne(recs, r);
  }

  // ---------- the backward pass on models ----------

  ghost function Set(m: Model, l: Lit): Model {
    if l.neg then m - iset{l.v} else m + iset{l.v}
  }

  /** A record whose other literals are all false makes its first literal true. */
  ghost function Apply(m: Model, r: Record): Model
    requires r != []
  {
    if SatClause(m, r[1..]) then m else Set(m, r[0])
  }

  ghost predicate AllNonempty(recs: seq<Record>) {
    forall i :: 0 <= i < |recs| ==> recs[i] != []
  }

  /** The model after the backward pass. */
  ghost function Lift(m: Model, recs: seq<Record>): Model
    requires AllNonempty(recs)
  {
    if recs == [] then m else Lift(Apply(m, recs[|recs| - 1]), recs[..|recs| - 1])
  }

  lemma {:induction false} LiftConcat(m: Model, a: seq<Record>, b: seq<Record>)
    requires AllNonempty(a) && AllNonempty(b)
    ensures AllNonempty(a + b) && Lift(m, a + b) == Lift(Lift(m, b), a)
    decreases |b|
  {
    if b == [] {
      assert a + b == a;
    } else {
      var last := |b| - 1;
      assert (a + b)[..|a + b| - 1] == a + b[..last];
      LiftConcat(Apply(m, b[last]), a, b[..last]);
    }
  }

  /** The pass only changes the variables that come first in a record. */
  lemma {:induction false} LiftKeeps(m: Model, recs: seq<Record>, v: nat)
    requires AllNonempty(recs) && forall i :: 0 <= i < |recs| ==> recs[i][0].v != v
    ensures v in Lift(m, recs) <==> v in m
  {
    if recs != [] {
      LiftKeeps(Apply(m, recs[|recs| - 1]), recs[..|recs| - 1], v);
    }
  }

  // ---------- the backward pass on stored values ----------

  function ApplyValues(model: seq<LBool>, r: Record): seq<LBool>
    requires r != [] && forall i :: 0 <= i < |r| ==> r[i].v < |model|
  {
    if exists i :: 1 <= i < |r| && Value(model, r[i]) != LFalse then model
    else model[r[0].v := if r[0].neg then LFalse else LTrue]
  }

  ghost predicate RecordsFit(recs: seq<Record>, n: nat) {
    AllNonempty(recs) && forall i :: 0 <= i < |recs| ==> InBounds(recs[i], n)
  }

  ghost predicate InBounds(r: Record, n: nat) {
    forall i :: 0 <= i < |r| ==> r[i].v < n
  }

  ghost function LiftValues(model: seq<LBool>, recs: seq<Record>): (r: seq<LBool>)
    requires RecordsFit(recs, |model|)
    ensures |r| == |model|
    decreases |recs|
  {
    if recs == [] then model
    else
      assert InBounds(recs[|recs| - 1], |model|);
      LiftValues(ApplyValues(model, recs[|recs| - 1]), recs[..|recs| - 1])
  }

  /** extendModel: reads the packed records backwards. */
  method ExtendModel(model0: seq<LBool>, elimclauses: seq<nat>, ghost recs: seq<Record>) returns (model: seq<LBool>)
    requires elimclauses == Packed(recs) && RecordsFit(recs, |model0|)
    ensures model == LiftValues(model0, recs)
  {
    model := model0;
    var i: int := |elimclauses| - 1;
    ghost var k: nat := |recs|;
    assert recs[..k] == recs;
    hide LiftValues, Packed, ApplyValues;
    while i > 0
      invariant k <= |recs| && RecordsFit(recs[..k], |model|) && |model| == |model0| && i == |Packed(recs[..k])| - 1
      invariant LiftValues(model, recs[..k]) == LiftValues(model0, recs)
      decreases i
    {
      RecordAt(recs, k);
      LiftOne(model, recs, k);
      model, i := OneRecord(model, elimclauses, i, recs[k - 1], |Packed(recs[..k - 1])|);
      k := k - 1;
    }
    AllRead(model, recs, k);
  }

  /** Where the last of the first k records is stored. */
  lemma RecordAt(recs: seq<Record>, k: nat)
    requires k <= |recs| && |Packed(recs[..k])| > 0
    ensures k > 0 && |Packed(recs[..k])| == |Packed(recs[..k - 1])| + |recs[k - 1]| + 1 <= |Packed(recs)|
    ensures Packed(recs)[|Packed(recs[..k - 1])| + |recs[k - 1]|] == |recs[k - 1]|
    ensures var r, base := recs[k - 1], |Packed(recs[..k - 1])|;
            forall j :: 0 <= j < |r| ==> Packed(recs)[base + j] == ToInt(r[j])
  {
    assert recs[..k][..k - 1] == recs[..k - 1];
    assert recs == recs[..k] + recs[k..];
    PackedConcat(recs[..k], recs[k..]);
    var before, r := Packed(recs[..k - 1]), recs[k - 1];
    assert Packed(recs[..k]) == before + Ints(r) + [|r|];
    forall j | 0 <= j < |r|
      ensures Packed(recs)[|before| + j] == ToInt(r[j])
    {
      assert Packed(recs)[|before| + j] == Packed(recs[..k])[|before| + j] == Ints(r)[j];
    }
  }

  lemma LiftOne(model: seq<LBool>, recs: seq<Record>, k: nat)
    requires 0 < k <= |recs| && RecordsFit(recs[..k], |model|)
    ensures recs[k - 1] != [] && InBounds(recs[k - 1], |model|)
    ensures |ApplyValues(model, recs[k - 1])| == |model| && RecordsFit(recs[..k - 1], |model|)
    ensures LiftValues(model, recs[..k]) == LiftValues(ApplyValues(model, recs[k - 1]), recs[..k - 1])
  {
    assert recs[..k][..k - 1] == recs[..k - 1];
    assert recs[..k][k - 1] == recs[k - 1];
    var before := recs[..k - 1];
    forall i | 0 <= i < |before|
      ensures before[i] != [] && InBounds(before[i], |model|)
    {
      assert before[i] == recs[..k][i];
    }
  }

  lemma AllRead(model: seq<LBool>, recs: seq<Record>, k: nat)
    requires k <= |recs| && RecordsFit(recs[..k], |model|) && |Packed(recs[..k])| <= 1
    ensures LiftValues(model, recs[..k]) == model
  {
    if k > 0 {
      NotEmptyPacked(recs[..k]);
    }
  }

  lemma NotEmptyPacked(recs: seq<Record>)
    requires AllNonempty(recs) && recs != []
    ensures |Packed(recs)| >= 2
  {
    assert recs[|recs| - 1] != [];
  }

  /** One round of the outer loop: i points at the length of the record r. */
  method OneRecord(model0: seq<LBool>, e: seq<nat>, i0: int, ghost r: Record, ghost base: nat)
    returns (model: seq<LBool>, i: int)
    requires r != [] && InBounds(r, |model0|) && base + |r| == i0 < |e| && e[i0] == |r|
    requires forall j :: 0 <= j < |r| ==> e[base + j] == ToInt(r[j])
    ensures model == ApplyValues(model0, r) && i == base - 1
  {
    model, i := model0, i0;
    var j := e[i];
    i := i - 1;
    var satisfied := false;
    while j > 1 && !satisfied
      invariant 1 <= j <= |r| && i == base + j - 1
      invariant satisfied ==> j > 1 && Value(model, r[j - 1]) != LFalse
      invariant forall t :: j <= t < |r| ==> Value(model, r[t]) == LFalse
      decreases j, !satisfied
    {
      PackingRoundTrip(r[j - 1], 0);
      if Value(model, ToLit(e[i])) != LFalse {
        satisfied := true;
      } else {
        j, i := j - 1, i - 1;
      }
    }
    if !satisfied {
      PackingRoundTrip(r[0], 0);
      var x := ToLit(e[i]);
      model := model[x.v := if x.neg then LFalse else LTrue];
    }
    i := i - j;
  }

  // ---------- both passes agree on readable records ----------

  ghost predicate Defined(model: seq<LBool>, vs: set<nat>) {
    forall v :: v in vs ==> v < |model| && model[v] != LUndef
  }

  /** A unit record defines its variable whatever the model says. */
  ghost function Defines(r: Record): set<nat>
    requires r != []
  {
    if |r| == 1 then {r[0].v} else {}
  }

  /** Read backwards, every record only looks at defined variables. */
  ghost predicate Readable(recs: seq<Record>, vs: set<nat>)
    requires AllNonempty(recs)
  {
    recs != [] ==>
      var r := recs[|recs| - 1];
      && (forall i :: 1 <= i < |r| ==> r[i].v in vs)
      && Readable(recs[..|recs| - 1], vs + Defines(r))
  }

  /** The variables defined once the pass is over. */
  ghost function DefinedAfter(recs: seq<Record>, vs: set<nat>): set<nat>
    requires AllNonempty(recs)
  {
    if recs == [] then vs else DefinedAfter(recs[..|recs| - 1], vs + Defines(recs[|recs| - 1]))
  }

  lemma ApplyAgrees(model: seq<LBool>, r: Record, vs: set<nat>)
    requires r != [] && InBounds(r, |model|) && Defined(model, vs) && forall i :: 1 <= i < |r| ==> r[i].v in vs
    ensures ModelOf(ApplyValues(model, r)) == Apply(ModelOf(model), r)
    ensures Defined(ApplyValues(model, r), vs + Defines(r))
  {
    var m := ModelOf(model);
    forall i | 1 <= i < |r|
      ensures Holds(m, r[i]) <==> Value(model, r[i]) != LFalse
    {
      assert r[i].v in vs;
    }
    assert SatClause(m, r[1..]) <==> exists i :: 1 <= i < |r| && Value(model, r[i]) != LFalse by {
      if i :| 0 <= i < |r[1..]| && Holds(m, r[1..][i]) {
        assert Value(model, r[i + 1]) != LFalse;
      }
      if i :| 1 <= i < |r| && Value(model, r[i]) != LFalse {
        assert r[1..][i - 1] == r[i];
      }
    }
  }

  /** On readable records the stored pass computes the pass on models, and defines all it must. */
  lemma {:induction false} LiftAgrees(model: seq<LBool>, recs: seq<Record>, vs: set<nat>)
    requires RecordsFit(recs, |model|) && Readable(recs, vs) && Defined(model, vs)
    ensures ModelOf(LiftValues(model, recs)) == Lift(ModelOf(model), recs)
    ensures Defined(LiftValues(model, recs), DefinedAfter(recs, vs))
    decreases |recs|
  {
    if recs != [] {
      var last := |recs| - 1;
      assert InBounds(recs[last], |model|);
      ApplyAgrees(model, recs[last], vs);
      LiftAgrees(ApplyValues(model, recs[last]), recs[..last], vs + Defines(recs[last]));
    }
  }

  lemma {:induction false} ReadableMore(recs: seq<Record>, vs: set<nat>, us: set<nat>)
    requires AllNonempty(recs) && Readable(recs, vs) && vs <= us
    ensures Readable(recs, us) && DefinedAfter(recs, vs) <= DefinedAfter(recs, us)
    decreases |recs|
  {
    if recs != [] {
      var r := recs[|recs| - 1];
      ReadableMore(recs[..|recs| - 1], vs + Defines(r), us + Defines(r));
    }
  }

  lemma {:induction false} DefinedAfterGrows(recs: seq<Record>, vs: set<nat>)
    requires AllNonempty(recs)
    ensures vs <= DefinedAfter(recs, vs)
    decreases |recs|
  {
    if recs != [] {
      DefinedAfterGrows(recs[..|recs| - 1], vs + Defines(recs[|recs| - 1]));
    }
  }

  lemma {:induction false} ReadableConcat(a: seq<Record>, b: seq<Record>, vs: set<nat>)
    requires AllNonempty(a) && AllNonempty(b) && Readable(b, vs) && Readable(a, DefinedAfter(b, vs))
    ensures AllNonempty(a + b) && Readable(a + b, vs)
    ensures DefinedAfter(a + b, vs) == DefinedAfter(a, DefinedAfter(b, vs))
    decreases |b|
  {
    if b == [] {
      assert a + b == a;
    } else {
      var last := |b| - 1;
      assert (a + b)[..|a + b| - 1] == a + b[..last];
      ReadableConcat(a, b[..last], vs + Defines(b[last]));
    }
  }
}
