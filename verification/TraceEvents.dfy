/** Events of an API trace, their removal and its undoing. */
module TraceEvents {
  import opened Wrappers

  datatype Kind =
    | Add | Assume | Deref | Failed | Freeze | Init | Melt | Reuse | Option | Phase | Release | Return | Sat | Simp
    | Repr | SetImportant | SetPhase | ResetPhase | SetPhases | Flush | Reduce | Frozen | Usable | Reusable
    | MaxVar | IncVar | Fixed | Fixate | ChkClone | Changed | Inconsistent | Lkhd

  /** A call of the library. */
  datatype Op = Op(kind: Kind, arg: int, opt: string)

  /** The number of the run before which something was removed. */
  datatype Stamp = Never | At(run: nat)

  datatype Event = Event(op: Op, removed: Stamp)

  /** Events from..to, inclusive. */
  datatype Range = Range(from: nat, to: nat, removed: Stamp)

  /** What the program tests: has the stamp been reached? */
  predicate Reached(s: Stamp, runs: nat) {
    s.At? && s.run <= runs
  }

  predicate Live(e: Event) {
    e.removed == Never
  }

  /** Stamps lie before run number `runs`. */
  ghost predicate Before(events: seq<Event>, runs: nat) {
    forall k :: 0 <= k < |events| ==> events[k].removed.At? ==> events[k].removed.run < runs
  }

  /** The calls that are left. */
  function LiveOps(events: seq<Event>): seq<Op> {
    if events == [] then []
    else LiveOps(events[..|events| - 1]) + if Live(events[|events| - 1]) then [events[|events| - 1].op] else []
  }

  function LiveCount(events: seq<Event>): nat {
    if events == [] then 0
    else LiveCount(events[..|events| - 1]) + if Live(events[|events| - 1]) then 1 else 0
  }

  /** Only which events are live counts, not when the others were removed. */
  ghost predicate SameLive(a: seq<Event>, b: seq<Event>) {
    |a| == |b| && forall k :: 0 <= k < |a| ==> a[k].op == b[k].op && (Live(a[k]) <==> Live(b[k]))
  }

  lemma {:induction false} SameLiveSameOps(a: seq<Event>, b: seq<Event>)
    requires SameLive(a, b)
    ensures LiveOps(a) == LiveOps(b) && LiveCount(a) == LiveCount(b)
  {
    if a != [] {
      SameLiveSameOps(a[..|a| - 1], b[..|b| - 1]);
    }
  }

  /** The calls of a are some of those of b. */
  ghost predicate FewerLive(a: seq<Event>, b: seq<Event>) {
    |a| == |b| && forall k :: 0 <= k < |a| ==> a[k].op == b[k].op && (Live(a[k]) ==> Live(b[k]))
  }

  lemma {:induction false} FewerCount(a: seq<Event>, b: seq<Event>)
    requires FewerLive(a, b)
    ensures LiveCount(a) <= LiveCount(b)
    ensures (exists k :: 0 <= k < |a| && Live(b[k]) && !Live(a[k])) ==> LiveCount(a) < LiveCount(b)
  {
    if a != [] {
      FewerCount(a[..|a| - 1], b[..|b| - 1]);
    }
  }

  // ---------- ranges ----------

  predicate InRange(r: Range, k: int) {
    r.from <= k <= r.to
  }

  /** Is event k in one of the ranges lo..hi? */
  ghost predicate InBatch(ranges: seq<Range>, lo: nat, hi: nat, k: int) {
    exists i :: lo <= i < hi && i < |ranges| && InRange(ranges[i], k)
  }

  /** Ranges are disjoint and ascending, and have a stamp when their first event, and then all
      their events, have one. */
  ghost predicate RangesOk(ranges: seq<Range>, events: seq<Event>, runs: nat) {
    && (forall i :: 0 <= i < |ranges| ==> ranges[i].from <= ranges[i].to < |events|)
    && (forall i, j :: 0 <= i < j < |ranges| ==> ranges[i].to < ranges[j].from)
    && (forall i :: 0 <= i < |ranges| ==> RangeOk(ranges[i], events, runs))
  }

  ghost predicate RangeOk(r: Range, events: seq<Event>, runs: nat)
    requires r.from < |events|
  {
    && (r.removed == Never ==> Live(events[r.from]))
    && (r.removed.At? ==> r.removed.run < runs && forall k :: 0 <= k < |events| && InRange(r, k) ==> !Live(events[k]))
  }

  /** The events after the live ones of a batch have been removed. */
  ghost function Cut(events: seq<Event>, ranges: seq<Range>, lo: nat, hi: nat, runs: nat): (r: seq<Event>)
    ensures |r| == |events|
  {
    seq(|events|, k requires 0 <= k < |events| =>
      if Live(events[k]) && InBatch(ranges, lo, hi, k) then events[k].(removed := At(runs)) else events[k])
  }

  ghost function CutRanges(ranges: seq<Range>, lo: nat, hi: nat, runs: nat): (r: seq<Range>)
    ensures |r| == |ranges|
  {
    seq(|ranges|, i requires 0 <= i < |ranges| =>
      if lo <= i < hi && ranges[i].removed == Never then ranges[i].(removed := At(runs)) else ranges[i])
  }

  /** One range more: its events become stamped. */
  lemma CutOneMore(events: seq<Event>, ranges: seq<Range>, lo: nat, i: nat, runs: nat)
    requires RangesOk(ranges, events, runs) && lo <= i < |ranges|
    ensures ranges[i].removed.At? ==> Cut(events, ranges, lo, i + 1, runs) == Cut(events, ranges, lo, i, runs)
    ensures var now := Cut(events, ranges, lo, i, runs);
            forall k :: 0 <= k < |events| ==>
              && (InRange(ranges[i], k) ==> now[k] == events[k])
              && Cut(events, ranges, lo, i + 1, runs)[k] ==
                 if Live(events[k]) && InRange(ranges[i], k) then events[k].(removed := At(runs)) else now[k]
  {
    forall k | 0 <= k < |events|
      ensures InBatch(ranges, lo, i + 1, k) <==> InBatch(ranges, lo, i, k) || InRange(ranges[i], k)
      ensures InRange(ranges[i], k) ==> !InBatch(ranges, lo, i, k)
    {
    }
    if ranges[i].removed.At? {
      assert RangeOk(ranges[i], events, runs);
      assert Cut(events, ranges, lo, i + 1, runs) == Cut(events, ranges, lo, i, runs);
    }
  }

  lemma CutNothing(events: seq<Event>, ranges: seq<Range>, i: nat, runs: nat)
    ensures Cut(events, ranges, i, i, runs) == events && CutRanges(ranges, i, i, runs) == ranges
  {
  }

  /** Batches end with the ranges. */
  lemma CutBeyond(events: seq<Event>, ranges: seq<Range>, lo: nat, i: nat, hi: nat, runs: nat)
    requires i <= hi && (i < hi ==> i >= |ranges|)
    ensures Cut(events, ranges, lo, i, runs) == Cut(events, ranges, lo, hi, runs)
    ensures CutRanges(ranges, lo, i, runs) == CutRanges(ranges, lo, hi, runs)
  {
    forall k | 0 <= k < |events|
      ensures InBatch(ranges, lo, i, k) <==> InBatch(ranges, lo, hi, k)
    {
    }
  }

  lemma CutRangesOneMore(ranges: seq<Range>, lo: nat, i: nat, runs: nat)
    requires lo <= i < |ranges|
    ensures CutRanges(ranges, lo, i, runs)[i] == ranges[i]
    ensures CutRanges(ranges, lo, i + 1, runs) ==
            if ranges[i].removed == Never then CutRanges(ranges, lo, i, runs)[i := ranges[i].(removed := At(runs))]
            else CutRanges(ranges, lo, i, runs)
  {
  }

  /** One range less: what its events look like before and after. */
  lemma CutOneLess(events: seq<Event>, ranges: seq<Range>, i: nat, hi: nat, runs: nat)
    requires RangesOk(ranges, events, runs) && i < |ranges| && i < hi
    ensures ranges[i].removed.At? ==>
              Cut(events, ranges, i + 1, hi, runs) == Cut(events, ranges, i, hi, runs) && CutRanges(ranges, i + 1, hi, runs) == CutRanges(ranges, i, hi, runs)
    ensures forall k :: 0 <= k < |events| ==>
              && (InRange(ranges[i], k) ==> Cut(events, ranges, i + 1, hi, runs)[k] == events[k])
              && Cut(events, ranges, i, hi, runs)[k] ==
                 if Live(events[k]) && InRange(ranges[i], k) then events[k].(removed := At(runs)) else Cut(events, ranges, i + 1, hi, runs)[k]
    ensures CutRanges(ranges, i, hi, runs)[i] == if ranges[i].removed == Never then ranges[i].(removed := At(runs)) else ranges[i]
    ensures ranges[i].removed == Never ==> CutRanges(ranges, i + 1, hi, runs) == CutRanges(ranges, i, hi, runs)[i := ranges[i]]
  {
    forall k | 0 <= k < |events|
      ensures InBatch(ranges, i, hi, k) <==> InBatch(ranges, i + 1, hi, k) || InRange(ranges[i], k)
      ensures InRange(ranges[i], k) ==> !InBatch(ranges, i + 1, hi, k)
    {
    }
    if ranges[i].removed.At? {
      assert RangeOk(ranges[i], events, runs);
      assert Cut(events, ranges, i + 1, hi, runs) == Cut(events, ranges, i, hi, runs);
    }
  }

  /** After a batch was removed the ranges are in order. */
  lemma CutKeepsRanges(events: seq<Event>, ranges: seq<Range>, lo: nat, hi: nat, runs: nat)
    requires RangesOk(ranges, events, runs) && Before(events, runs)
    ensures RangesOk(CutRanges(ranges, lo, hi, runs), Cut(events, ranges, lo, hi, runs), runs + 1)
    ensures Before(Cut(events, ranges, lo, hi, runs), runs + 1)
  {
    var events', ranges' := Cut(events, ranges, lo, hi, runs), CutRanges(ranges, lo, hi, runs);
    forall i | 0 <= i < |ranges|
      ensures RangeOk(ranges'[i], events', runs + 1)
    {
      assert RangeOk(ranges[i], events, runs);
      if ranges'[i].removed == Never {
        NotInBatch(ranges, lo, hi, i, ranges[i].from, events, runs);
      } else if ranges[i].removed == Never {
        forall k | 0 <= k < |events| && InRange(ranges[i], k)
          ensures InBatch(ranges, lo, hi, k)
        {
        }
      }
    }
  }

  lemma NotInBatch(ranges: seq<Range>, lo: nat, hi: nat, i: nat, k: nat, events: seq<Event>, runs: nat)
    requires RangesOk(ranges, events, runs) && i < |ranges| && InRange(ranges[i], k) && !(lo <= i < hi)
    ensures !InBatch(ranges, lo, hi, k)
  {
  }

  /** A batch with an untouched range takes at least one event away, others none. */
  lemma CutCount(events: seq<Event>, ranges: seq<Range>, lo: nat, hi: nat, runs: nat)
    requires RangesOk(ranges, events, runs)
    ensures LiveCount(Cut(events, ranges, lo, hi, runs)) <= LiveCount(events)
    ensures (exists i :: lo <= i < hi && i < |ranges| && ranges[i].removed == Never)
            ==> LiveCount(Cut(events, ranges, lo, hi, runs)) < LiveCount(events)
  {
    var events' := Cut(events, ranges, lo, hi, runs);
    FewerCount(events', events);
    if i :| lo <= i < hi && i < |ranges| && ranges[i].removed == Never {
      assert RangeOk(ranges[i], events, runs);
      assert InRange(ranges[i], ranges[i].from);
      assert Live(events[ranges[i].from]) && !Live(events'[ranges[i].from]);
    }
  }

  // ---------- one event ----------

  /** The trace without event k. */
  function Without(events: seq<Event>, k: nat): seq<Event>
    requires k < |events|
  {
    events[k := events[k].(removed := At(0))]
  }

  /** Removing the range of one event leaves the calls without it. */
  lemma CutOne(events: seq<Event>, ranges: seq<Range>, i: nat, k: nat, runs: nat)
    requires i < |ranges| && ranges[i].from == k == ranges[i].to && k < |events| && Live(events[k])
    ensures LiveOps(Cut(events, ranges, i, i + 1, runs)) == LiveOps(Without(events, k))
  {
    var hi := i + 1;
    forall j | 0 <= j < |events|
      ensures InBatch(ranges, i, hi, j) <==> j == k
    {
      assert InRange(ranges[i], j) <==> j == k;
    }
    SameLiveSameOps(Cut(events, ranges, i, i + 1, runs), Without(events, k));
  }

  // ---------- variables ----------

  predicate HasLiteral(kind: Kind) {
    match kind
    case Add | Assume | Deref | Failed | Fixed | Frozen | Reusable | Usable | Repr
       | SetImportant | SetPhase | ResetPhase | Freeze | Melt | Reuse | Phase => true
    case _ => false
  }

  /** The variable of a call, or 0. */
  function VarOf(op: Op): nat {
    if !HasLiteral(op.kind) then 0 else if op.arg < 0 then -op.arg else op.arg
  }

  ghost predicate UsesVar(events: seq<Event>, v: nat) {
    exists k :: 0 <= k < |events| && Live(events[k]) && VarOf(events[k].op) == v
  }

  /** Which variables up to n do the live events use? */
  ghost function UsedVars(events: seq<Event>, n: nat): (u: seq<bool>)
    ensures |u| == n + 1
  {
    seq(n + 1, v requires 0 <= v <= n => v > 0 && UsesVar(events, v))
  }

  /** The number of used variables up to v. */
  function Rank(used: seq<bool>, v: nat): nat
    requires v < |used|
  {
    if v == 0 then 0 else Rank(used, v - 1) + if used[v] then 1 else 0
  }

  /** Used variables have different new names in the old order. */
  ghost predicate Renames(mapping: seq<nat>, used: seq<bool>) {
    && |mapping| == |used| > 0
    && (forall v :: 0 < v < |used| && used[v] ==> mapping[v] > 0)
    && (forall u, v :: 0 < u < v < |used| && used[u] && used[v] ==> mapping[u] < mapping[v])
  }

  /** The new names are 1, 2, 3, ... */
  ghost predicate Compact(mapping: seq<nat>, used: seq<bool>) {
    |mapping| == |used| && forall v :: 0 < v < |used| && used[v] ==> mapping[v] == Rank(used, v)
  }

  /** No variable has a smaller name than a compact renaming gives it. */
  lemma {:induction false} RankAtMost(mapping: seq<nat>, used: seq<bool>, v: nat)
    requires Renames(mapping, used) && 0 < v < |used| && used[v]
    ensures Rank(used, v) <= mapping[v]
  {
    var u := LastUsed(used, v);
    if u > 0 {
      RankAtMost(mapping, used, u);
    }
  }

  /** The used variable before v. */
  lemma {:induction false} LastUsed(used: seq<bool>, v: nat) returns (u: nat)
    requires 0 < v < |used| && used[v]
    ensures u < v && Rank(used, v) == (if u == 0 then 0 else Rank(used, u)) + 1 && (u > 0 ==> used[u])
  {
    u := v - 1;
    while u > 0 && !used[u]
      invariant u < v && Rank(used, v - 1) == Rank(used, u)
    {
      u := u - 1;
    }
  }

  lemma {:induction false} RankIncreases(used: seq<bool>, u: nat, v: nat)
    requires u <= v < |used|
    ensures Rank(used, u) <= Rank(used, v)
    ensures u < v && used[v] ==> Rank(used, u) < Rank(used, v)
  {
    if u < v {
      RankIncreases(used, u, v - 1);
    }
  }

  lemma CompactRenames(mapping: seq<nat>, used: seq<bool>)
    requires Compact(mapping, used) && |used| > 0
    ensures Renames(mapping, used)
  {
    forall u, v | 0 <= u < v < |used| && used[v]
      ensures Rank(used, u) < Rank(used, v)
    {
      RankIncreases(used, u, v);
    }
    assert forall v :: 0 < v < |used| && used[v] ==> Rank(used, 0) < Rank(used, v);
  }

  /** The literal as it is printed. */
  function PrintedLit(mapping: seq<nat>, lit: int): int
    requires -|mapping| < lit < |mapping|
  {
    var name: int := mapping[if lit < 0 then -lit else lit];
    if lit == 0 then 0 else if lit < 0 then -name else name
  }

  /** The printed trace keeps apart what was apart, also a literal and its negation; what was the
      same stays the same. */
  lemma PrintFaithful(mapping: seq<nat>, events: seq<Event>, n: nat, i: nat, j: nat)
    requires Renames(mapping, UsedVars(events, n)) && i < |events| && j < |events|
    requires forall k :: 0 <= k < |events| ==> VarOf(events[k].op) <= n
    requires Live(events[i]) && Live(events[j]) && HasLiteral(events[i].op.kind) && HasLiteral(events[j].op.kind)
    ensures -|mapping| < events[i].op.arg < |mapping| && -|mapping| < events[j].op.arg < |mapping|
    ensures var a, b := events[i].op.arg, events[j].op.arg;
            && (PrintedLit(mapping, a) == PrintedLit(mapping, b) <==> a == b)
            && (PrintedLit(mapping, a) == -PrintedLit(mapping, b) <==> a == -b)
            && (PrintedLit(mapping, a) == 0 <==> a == 0)
  {
    var u, v := VarOf(events[i].op), VarOf(events[j].op);
    assert VarOf(events[i].op) <= n && VarOf(events[j].op) <= n;
    assert UsesVar(events, u) && UsesVar(events, v);
    var used := UsedVars(events, n);
    assert u > 0 ==> used[u] && mapping[u] > 0;
    assert v > 0 ==> used[v] && mapping[v] > 0;
    assert u != v && u > 0 && v > 0 ==> mapping[u] != mapping[v];
  }

  /** Fewer events keep a renaming. */
  lemma FewerRenames(mapping: seq<nat>, a: seq<Event>, b: seq<Event>, n: nat)
    requires Renames(mapping, UsedVars(b, n)) && FewerLive(a, b)
    ensures Renames(mapping, UsedVars(a, n))
  {
    forall v | 0 < v <= n && UsedVars(a, n)[v]
      ensures UsedVars(b, n)[v]
    {
      var k :| 0 <= k < |a| && Live(a[k]) && VarOf(a[k].op) == v;
      assert Live(b[k]);
    }
  }
}
