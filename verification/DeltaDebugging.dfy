/** The delta debugger for API traces. */
module DeltaDebugging {
  import opened TraceEvents

  class Reducer {
    /** What running the library on some calls ends with. */
    const oracle: seq<Op> -> int
    var golden: int
    var events: seq<Event>
    var runs: nat
    var ranges: seq<Range>
    /** The new names of variables 1..nmap. */
    const nmap: nat
    var mapping: seq<nat>

    /** The calls that are left end as the original trace did. */
    ghost predicate Valid()
      reads this
    {
      Before(events, runs) && oracle(LiveOps(events)) == golden
    }

    ghost predicate RangesValid()
      reads this
    {
      RangesOk(ranges, events, runs)
    }

    /** The printed trace names different variables differently, in the old order. */
    ghost predicate Printable()
      reads this
    {
      && (forall k :: 0 <= k < |events| ==> VarOf(events[k].op) <= nmap)
      && Renames(mapping, UsedVars(events, nmap))
    }

    /** Reads a trace and runs it once. */
    constructor (trace: seq<Op>, variables: nat, library: seq<Op> -> int)
      requires forall k :: 0 <= k < |trace| ==> VarOf(trace[k]) <= variables
      ensures Valid() && Printable() && oracle == library && golden == library(trace) && |events| == |trace|
      ensures forall k :: 0 <= k < |trace| ==> events[k] == Event(trace[k], Never)
    {
      oracle := library;
      events := seq(|trace|, k requires 0 <= k < |trace| => Event(trace[k], Never));
      runs, golden, ranges := 0, 0, [];
      nmap, mapping := variables, seq(variables + 1, (v: nat) => v);
      new;
      AllLive(trace, events);
      var res := Run();
      golden := res;
    }

    /** Runs the library on the events that have not been removed. */
    method Run() returns (status: int)
      requires Before(events, runs + 1)
      modifies this`runs
      ensures status == oracle(LiveOps(events)) && runs == old(runs) + 1
    {
      var calls, k := [], 0;
      while k < |events|
        invariant k <= |events| && calls == LiveOps(events[..k])
      {
        assert events[..k + 1][..k] == events[..k];
        if !Reached(events[k].removed, runs) {
          calls := calls + [events[k].op];
        }
        k := k + 1;
      }
      assert events[..k] == events;
      status := oracle(calls);
      runs := runs + 1;
    }

    // ---------- one batch ----------

    /** Removes the events of a batch of ranges if the trace still ends the same, and puts them
        back, with all stamps as they were, if not. */
    method TryBatch(pos: nat, width: nat) returns (same: bool)
      requires Valid() && RangesValid() && pos < |ranges| && width > 0
      modifies this`events, this`ranges, this`runs
      ensures Valid() && RangesValid() && runs == old(runs) + 1
      ensures same <==> oracle(LiveOps(Cut(old(events), old(ranges), pos, pos + width, old(runs)))) == golden
      ensures same ==> events == Cut(old(events), old(ranges), pos, pos + width, old(runs))
      ensures same ==> ranges == CutRanges(old(ranges), pos, pos + width, old(runs))
      ensures !same ==> events == old(events) && ranges == old(ranges)
    {
      hide RangesOk, Before, Cut, CutRanges, LiveOps;
      ghost var events0, ranges0, runs0 := events, ranges, runs;
      CutKeepsRanges(events, ranges, pos, pos + width, runs);
      MarkBatch(pos, width);
      var res := Run();
      same := res == golden;
      if !same {
        UndoBatch(pos, width, events0, ranges0);
        StillBefore(events0, ranges0, runs0);
      }
    }

    method MarkBatch(pos: nat, width: nat)
      requires Before(events, runs) && RangesValid()
      modifies this`events, this`ranges
      ensures events == Cut(old(events), old(ranges), pos, pos + width, runs)
      ensures ranges == CutRanges(old(ranges), pos, pos + width, runs)
    {
      hide RangesOk, Before, Cut, CutRanges;
      ghost var events0, ranges0 := events, ranges;
      CutNothing(events, ranges, pos, runs);
      var i := pos;
      while i < |ranges| && i < pos + width
        invariant pos <= i <= pos + width && |ranges| == |ranges0| && |events| == |events0|
        invariant events == Cut(events0, ranges0, pos, i, runs) && ranges == CutRanges(ranges0, pos, i, runs)
      {
        CutOneMore(events0, ranges0, pos, i, runs);
        CutRangesOneMore(ranges0, pos, i, runs);
        RangeAt(events0, ranges0, i, runs);
        if !Reached(ranges[i].removed, runs) {
          MarkRange(i, events0);
          assert events == Cut(events0, ranges0, pos, i + 1, runs);
        }
        i := i + 1;
      }
      CutBeyond(events0, ranges0, pos, i, pos + width, runs);
    }

    /** Stamps a range and its live events. */
    method MarkRange(i: nat, ghost events0: seq<Event>)
      requires i < |ranges| && ranges[i].from <= ranges[i].to < |events| == |events0|
      requires Before(events0, runs) && forall k :: 0 <= k < |events| && InRange(ranges[i], k) ==> events[k] == events0[k]
      modifies this`events, this`ranges
      ensures ranges == old(ranges)[i := old(ranges)[i].(removed := At(runs))] && |events| == |events0|
      ensures forall k :: 0 <= k < |events| ==>
                events[k] == if Live(events0[k]) && InRange(old(ranges)[i], k) then events0[k].(removed := At(runs)) else old(events)[k]
    {
      var j, found := ranges[i].from, 0;
      while j <= ranges[i].to
        invariant ranges == old(ranges) && ranges[i].from <= j <= ranges[i].to + 1 && |events| == |events0|
        invariant forall k :: 0 <= k < |events| ==>
                    events[k] == if k < j && Live(events0[k]) && InRange(ranges[i], k) then events0[k].(removed := At(runs)) else old(events)[k]
      {
        if !Reached(events[j].removed, runs) {
          found := found + 1;
          events := events[j := events[j].(removed := At(runs))];
        }
        j := j + 1;
      }
      ranges := ranges[i := ranges[i].(removed := At(runs))];
    }

    /** Takes back the stamps of the last run. */
    method UndoBatch(pos: nat, width: nat, ghost events0: seq<Event>, ghost ranges0: seq<Range>)
      requires runs > 0 && Before(events0, runs - 1) && RangesOk(ranges0, events0, runs - 1)
      requires events == Cut(events0, ranges0, pos, pos + width, runs - 1)
      requires ranges == CutRanges(ranges0, pos, pos + width, runs - 1)
      modifies this`events, this`ranges
      ensures events == events0 && ranges == ranges0
    {
      hide RangesOk, Before, Cut, CutRanges;
      var i := pos;
      while i < |ranges| && i < pos + width
        invariant pos <= i <= pos + width && |ranges| == |ranges0| && |events| == |events0|
        invariant events == Cut(events0, ranges0, i, pos + width, runs - 1) && ranges == CutRanges(ranges0, i, pos + width, runs - 1)
      {
        CutOneLess(events0, ranges0, i, pos + width, runs - 1);
        RangeAt(events0, ranges0, i, runs - 1);
        if !(ranges[i].removed.At? && ranges[i].removed.run < runs - 1) {
          UndoRange(i, events0, ranges0[i], Cut(events0, ranges0, i + 1, pos + width, runs - 1));
          assert events == Cut(events0, ranges0, i + 1, pos + width, runs - 1);
        }
        i := i + 1;
      }
      CutBeyond(events0, ranges0, i, i, pos + width, runs - 1);
      CutNothing(events0, ranges0, i, runs - 1);
    }

    /** Makes a range, and the events that were removed with it, live again. */
    method UndoRange(i: nat, ghost events0: seq<Event>, ghost r: Range, ghost after: seq<Event>)
      requires runs > 0 && i < |ranges| && ranges[i] == r.(removed := At(runs - 1)) && r.removed == Never
      requires r.from <= r.to < |events| == |events0| == |after| && Before(events0, runs - 1)
      requires forall k :: 0 <= k < |events| ==>
                 && (InRange(r, k) ==> after[k] == events0[k])
                 && events[k] == if Live(events0[k]) && InRange(r, k) then events0[k].(removed := At(runs - 1)) else after[k]
      modifies this`events, this`ranges
      ensures ranges == old(ranges)[i := r] && |events| == |after|
      ensures forall k :: 0 <= k < |events| ==> events[k] == after[k]
    {
      ranges := ranges[i := ranges[i].(removed := Never)];
      var j := ranges[i].from;
      while j <= ranges[i].to
        invariant r.from <= j <= r.to + 1 && |events| == |events0| && ranges == old(ranges)[i := r]
        invariant forall k :: 0 <= k < |events| ==>
                    events[k] == if k >= j && Live(events0[k]) && InRange(r, k) then events0[k].(removed := At(runs - 1)) else after[k]
      {
        if events[j].removed == At(runs - 1) {
          events := events[j := events[j].(removed := Never)];
        }
        j := j + 1;
      }
    }

    // ---------- ranges ----------

    /** Where a range that starts at a live event ends: at granularity 2 with the calls of one
        kind, at 1 with the clause, at 0 at once. */
    method RangeEnd(rgran: nat, from: nat) returns (to: nat)
      requires Before(events, runs) && from < |events| && Live(events[from])
      ensures from <= to < |events| && (rgran == 0 ==> to == from)
      ensures rgran == 1 ==>
                && (forall k :: from <= k < to ==> InClause(k))
                && (events[from].op.kind != Add ==> to == from)
                && (events[from].op.kind == Add ==> to + 1 == |events| || !InClause(to))
      ensures rgran == 2 ==> OneKind(from, to) && !(to + 1 < |events| && GoesOn(from, to))
    {
      to := from;
      if rgran == 2 {
        to := ClusterEnd(from);
      } else if rgran == 1 {
        if to + 1 < |events| && events[to].op.kind == Add {
          while to + 1 < |events| && (Reached(events[to].removed, runs) || (events[to].op.kind == Add && events[to].op.arg != 0))
            invariant from <= to < |events| && forall k :: from <= k < to ==> InClause(k)
          {
            to := to + 1;
          }
        }
      } else {
        to := SkipRemoved(from);
      }
    }

    /** Event k is removed, or adds a literal that is not the last of its clause. */
    ghost predicate InClause(k: nat)
      requires k < |events|
      reads this`events
    {
      !Live(events[k]) || (events[k].op.kind == Add && events[k].op.arg != 0)
    }

    /** The events from..to are calls of one kind, or, after dereferencing or solving, their results. */
    ghost predicate OneKind(from: nat, to: nat)
      requires from <= to < |events|
      reads this`events
    {
      var kind := events[from].op.kind;
      forall k :: from < k <= to ==>
        || (events[k].op.kind == kind && kind != Init && kind != Sat && kind != Release)
        || (events[k].op.kind == Return && (kind == Deref || (kind == Sat && k == to)))
    }

    /** The event after `to` belongs to the range as well. */
    ghost predicate GoesOn(from: nat, to: nat)
      requires from <= to && to + 1 < |events|
      reads this`events
    {
      var kind, next := events[from].op.kind, events[to + 1].op.kind;
      if next == kind then kind != Init && kind != Sat && kind != Release
      else next == Return && (kind == Deref || (kind == Sat && to == from))
    }

    method ClusterEnd(from: nat) returns (to: nat)
      requires from < |events|
      ensures from <= to < |events| && OneKind(from, to) && !(to + 1 < |events| && GoesOn(from, to))
    {
      var cluster := events[from].op.kind;
      to := from;
      while to + 1 < |events|
        invariant from <= to < |events| && OneKind(from, to) && (cluster == Sat ==> to == from)
        decreases |events| - to
      {
        var next := events[to + 1].op.kind;
        if next != cluster {
          if cluster == Deref && next == Return {
          } else if cluster == Sat && next == Return {
            to := to + 1;
            break;
          } else {
            break;
          }
        } else if cluster == Init || cluster == Sat || cluster == Release {
          break;
        }
        to := to + 1;
      }
    }

    method SkipRemoved(from: nat) returns (to: nat)
      requires Before(events, runs) && from < |events|
      ensures from <= to < |events| && (Live(events[from]) ==> to == from)
    {
      to := from;
      while to + 1 < |events| && Reached(events[to].removed, runs)
        invariant from <= to < |events| && (Live(events[from]) ==> to == from)
      {
        to := to + 1;
      }
    }

    /** Splits the trace into ranges. At granularity 0 each live event is one. */
    method FindRanges(rgran: nat)
      requires Before(events, runs)
      modifies this`ranges
      ensures RangesValid() && |ranges| <= |events| && AllNever(ranges) && Covered(ranges, events, |events|)
      ensures rgran == 0 ==> Singles(ranges, events) && |ranges| == LiveCount(events)
    {
      hide RangesOk, Before, Singles, AllNever, Live, LiveCount, RangeOk, Covered;
      var from := 0;
      ranges := [];
      NoRanges(events, runs);
      while true
        invariant from <= |events| && |ranges| <= from
        invariant RangesValid() && AllNever(ranges) && (ranges != [] ==> ranges[|ranges| - 1].to < from)
        invariant rgran == 0 ==> Singles(ranges, events) && |ranges| == LiveCount(events[..from])
        invariant Covered(ranges, events, from)
        decreases |events| - from
      {
        ghost var start := from;
        from := NextLive(from);
        CoveredSkip(ranges, events, start, from);
        if from == |events| {
          break;
        }
        var to := RangeEnd(rgran, from);
        AppendRange(ranges, events, runs, Range(from, to, Never));
        CoveredAppend(ranges, events, Range(from, to, Never));
        if rgran == 0 {
          AppendSingle(ranges, events, from);
        }
        ranges := ranges + [Range(from, to, Never)];
        from := to + 1;
        if from == |events| {
          break;
        }
      }
      assert events[..|events|] == events;
    }

    method NextLive(start: nat) returns (from: nat)
      requires Before(events, runs) && start <= |events|
      ensures start <= from <= |events| && (from < |events| ==> Live(events[from]))
      ensures LiveCount(events[..from]) == LiveCount(events[..start]) && forall k :: start <= k < from ==> !Live(events[k])
    {
      from := start;
      while from < |events| && Reached(events[from].removed, runs)
        invariant start <= from <= |events| && LiveCount(events[..from]) == LiveCount(events[..start])
        invariant forall k :: start <= k < from ==> !Live(events[k])
      {
        assert events[..from + 1][..from] == events[..from];
        from := from + 1;
      }
    }

    // ---------- one granularity ----------

    /** Without event k the trace would end differently. */
    ghost predicate Needed(k: nat)
      requires k < |events|
      reads this
    {
      oracle(LiveOps(Without(events, k))) != golden
    }

    /** Tries all batches of a width. `start` is the number of live events when the ranges were
        made: unless they are all untouched, it has become smaller. */
    method Pass(width: nat, ghost start: nat) returns (changed: bool)
      requires Valid() && RangesValid() && ranges != [] && width > 0
      requires LiveCount(events) <= start && (AllNever(ranges) || LiveCount(events) < start)
      modifies this`events, this`ranges, this`runs
      ensures Valid() && RangesValid() && FewerLive(events, old(events))
      ensures LiveCount(events) <= start && (AllNever(ranges) || LiveCount(events) < start)
      ensures |ranges| == |old(ranges)|
      ensures if changed then LiveCount(events) < start else events == old(events) && ranges == old(ranges)
      ensures !changed && width == 1 && Singles(ranges, events) ==> forall i :: 0 <= i < |ranges| ==> Needed(ranges[i].from)
    {
      hide RangesOk, Before, LiveOps;
      var pos := 0;
      changed := false;
      while pos < |ranges|
        invariant Valid() && RangesValid() && FewerLive(events, old(events)) && |ranges| == |old(ranges)|
        invariant LiveCount(events) <= start && (AllNever(ranges) || LiveCount(events) < start)
        invariant if changed then LiveCount(events) < start else events == old(events) && ranges == old(ranges)
        invariant width == 1 && !changed && Singles(ranges, events) ==> forall i :: 0 <= i < pos && i < |ranges| ==> Needed(ranges[i].from)
        decreases |ranges| - pos
      {
        var same := TryOne(pos, width, start);
        if same {
          changed := true;
        }
        pos := pos + width;
      }
    }

    /** One batch, and what it means for the number of live events. */
    method TryOne(pos: nat, width: nat, ghost start: nat) returns (same: bool)
      requires Valid() && RangesValid() && pos < |ranges| && width > 0
      requires LiveCount(events) <= start && (AllNever(ranges) || LiveCount(events) < start)
      modifies this`events, this`ranges, this`runs
      ensures Valid() && RangesValid() && FewerLive(events, old(events)) && |ranges| == |old(ranges)|
      ensures if same then LiveCount(events) < start else events == old(events) && ranges == old(ranges)
      ensures !same && width == 1 && Singles(ranges, events) ==> Needed(ranges[pos].from)
    {
      hide LiveOps, LiveCount;
      CutCount(events, ranges, pos, pos + width, runs);
      ghost var events0, ranges0, runs0 := events, ranges, runs;
      hide RangesOk, Before, CutRanges;
      same := TryBatch(pos, width);
      if !same && width == 1 && Singles(ranges0, events0) {
        CutOne(events0, ranges0, pos, ranges0[pos].from, runs0);
      }
    }

    /** All widths for the ranges of one granularity. */
    method Granularity(rgran: nat) returns (changed: bool)
      requires Valid()
      modifies this`events, this`ranges, this`runs
      ensures Valid() && FewerLive(events, old(events))
      ensures if changed then LiveCount(events) < LiveCount(old(events)) else events == old(events)
      ensures !changed && rgran == 0 && LiveCount(events) >= 2 ==> forall k :: 0 <= k < |events| && Live(events[k]) ==> Needed(k)
    {
      hide RangesOk, Before, LiveOps, LiveCount;
      FindRanges(rgran);
      ghost var start := LiveCount(events);
      var width := |ranges| / 2;
      changed := false;
      while width > 0
        invariant Valid() && RangesValid() && FewerLive(events, old(events)) && width >= 0 && (width > 0 ==> ranges != [])
        invariant LiveCount(events) <= start && (AllNever(ranges) || LiveCount(events) < start)
        invariant if changed then LiveCount(events) < start else events == old(events)
        invariant !changed && rgran == 0 ==> Singles(ranges, events) && |ranges| == LiveCount(events)
        invariant !changed && rgran == 0 && |ranges| >= 2 && width == 0 ==> forall i :: 0 <= i < |ranges| ==> Needed(ranges[i].from)
      {
        var c := Pass(width, start);
        changed := changed || c;
        width := if width > 4 then width / 2 else width - 1;
      }
      if !changed && rgran == 0 {
        SinglesCover(ranges, events);
        if |ranges| >= 2 {
          forall k | 0 <= k < |events| && Live(events[k])
            ensures Needed(k)
          {
            var i :| 0 <= i < |ranges| && ranges[i].from == k;
            assert Needed(ranges[i].from);
          }
        }
      }
    }

    // ---------- variables ----------

    /** Which variables do the live events use, and how many are they? */
    method FindUsed() returns (used: seq<bool>, nused: nat)
      requires Before(events, runs) && forall k :: 0 <= k < |events| ==> VarOf(events[k].op) <= nmap
      ensures used == UsedVars(events, nmap) && nused == Rank(used, nmap)
    {
      used, nused := seq(nmap + 1, _ => false), 0;
      NoneUsed(used, nmap);
      var k := 0;
      while k < |events|
        invariant k <= |events| && |used| == nmap + 1 && nused == Rank(used, nmap)
        invariant forall v :: 0 <= v <= nmap ==> (used[v] <==> v > 0 && UsesVar(events[..k], v))
      {
        UsesOneMore(events, k);
        if !Reached(events[k].removed, runs) {
          var idx := VarOf(events[k].op);
          if idx != 0 && !used[idx] {
            RankUpdate(used, idx, nmap);
            used := used[idx := true];
            nused := nused + 1;
          }
        }
        k := k + 1;
      }
      assert events[..k] == events;
    }

    /** Gives the used variables the names 1, 2, 3, ... if some variable is not used and that changes
        any name. The run in between calls the library with the old names, so its result is the same
        as before; the trace with the new names is only printed. */
    method Renumber() returns (changed: bool)
      requires Valid() && Printable()
      modifies this`mapping, this`runs
      ensures Valid() && Printable()
      ensures changed <==> Rank(UsedVars(events, nmap), nmap) < nmap && !Compact(old(mapping), UsedVars(events, nmap))
      ensures changed ==> Compact(mapping, UsedVars(events, nmap))
      ensures !changed ==> mapping == old(mapping)
    {
      hide Renames, LiveOps, UsedVars;
      changed := false;
      var used, nused := FindUsed();
      if nused < nmap {
        var smap := mapping;
        var moved;
        mapping, moved := Compacted(used);
        CompactRenames(mapping, used);
        if moved != 0 {
          var res := Run();
          changed := res == golden;
          mapping := if changed then mapping else smap;
        } else {
          mapping := smap;
        }
      }
      StillBefore(events, [], old(runs));
    }

    /** The compact renaming, and how many names it changes. */
    method Compacted(used: seq<bool>) returns (result: seq<nat>, moved: nat)
      requires |used| == nmap + 1 && Renames(mapping, used)
      ensures Compact(result, used) && (moved == 0 <==> Compact(mapping, used))
    {
      result, moved := [0], 0;
      var mapto := 1;
      var idx := 1;
      while idx <= nmap
        invariant 1 <= idx <= nmap + 1 && |result| == idx && mapto == Rank(used, idx - 1) + 1
        invariant forall v :: 0 < v < idx && used[v] ==> result[v] == Rank(used, v)
        invariant moved == 0 <==> forall v :: 0 < v < idx && used[v] ==> mapping[v] == Rank(used, v)
      {
        if used[idx] {
          RankAtMost(mapping, used, idx);
          if mapping[idx] != mapto {
            assert mapto < mapping[idx];
            moved := moved + 1;
          }
          result := result + [mapto];
          mapto := mapto + 1;
        } else {
          result := result + [0];
        }
        idx := idx + 1;
      }
    }

    // ---------- the whole reduction ----------

    /** Reduces the trace until nothing more can be removed: it still ends as the original one
        did, its calls are some of the old ones, and, unless a single one is left, none of them
        can be left out. */
    method Dd()
      requires Valid() && Printable()
      modifies this`events, this`ranges, this`runs, this`mapping
      ensures Valid() && Printable() && FewerLive(events, old(events))
      ensures LiveCount(events) >= 2 ==> forall k :: 0 <= k < |events| && Live(events[k]) ==> Needed(k)
    {
      hide Renames, Compact, LiveOps, LiveCount, UsedVars, Before;
      var changed := true;
      while changed
        invariant Valid() && Printable() && FewerLive(events, old(events))
        invariant !changed && LiveCount(events) >= 2 ==> forall k :: 0 <= k < |events| && Live(events[k]) ==> Needed(k)
        decreases changed, LiveCount(events), !Compact(mapping, UsedVars(events, nmap))
      {
        changed := Round();
      }
    }

    /** One iteration: the variables are renumbered, then all granularities are tried. */
    method Round() returns (changed: bool)
      requires Valid() && Printable()
      modifies this`events, this`ranges, this`runs, this`mapping
      ensures Valid() && Printable() && FewerLive(events, old(events))
      ensures changed ==>
                || LiveCount(events) < LiveCount(old(events))
                || (events == old(events) && !Compact(old(mapping), UsedVars(events, nmap)) && Compact(mapping, UsedVars(events, nmap)))
      ensures !changed && LiveCount(events) >= 2 ==> forall k :: 0 <= k < |events| && Live(events[k]) ==> Needed(k)
    {
      hide Renames, Compact, LiveOps, LiveCount, UsedVars, Before;
      ghost var events0 := events;
      changed := Renumber();
      ghost var renamed := mapping;
      var rgran := 2;
      while rgran >= 0
        invariant -1 <= rgran <= 2 && Valid() && FewerLive(events, events0) && mapping == renamed
        invariant !changed ==> events == events0
        invariant changed ==>
                    || LiveCount(events) < LiveCount(events0)
                    || (events == events0 && !Compact(old(mapping), UsedVars(events, nmap)) && Compact(mapping, UsedVars(events, nmap)))
        invariant rgran == -1 && !changed && LiveCount(events) >= 2 ==> forall k :: 0 <= k < |events| && Live(events[k]) ==> Needed(k)
      {
        var c := Granularity(rgran);
        changed := changed || c;
        rgran := rgran - 1;
      }
      FewerRenames(mapping, events, events0, nmap);
    }
  }

  predicate AllNever(ranges: seq<Range>) {
    forall i :: 0 <= i < |ranges| ==> ranges[i].removed == Never
  }

  /** Every range is one live event. */
  predicate Singles(ranges: seq<Range>, events: seq<Event>) {
    && (forall i :: 0 <= i < |ranges| ==> ranges[i].from == ranges[i].to < |events| && Live(events[ranges[i].from]))
    && (forall i, j :: 0 <= i < j < |ranges| ==> ranges[i].from < ranges[j].from)
  }

  lemma SinglesOfPrefix(ranges: seq<Range>, events: seq<Event>)
    requires Singles(ranges, events) && ranges != [] && ranges[|ranges| - 1].from < |events| - 1
    ensures Singles(ranges, events[..|events| - 1])
  {
    forall i | 0 <= i < |ranges|
      ensures ranges[i].from < |events| - 1
    {
      assert i < |ranges| - 1 ==> ranges[i].from < ranges[|ranges| - 1].from;
    }
  }

  lemma {:induction false} SinglesAtMost(ranges: seq<Range>, events: seq<Event>)
    requires Singles(ranges, events)
    ensures |ranges| <= LiveCount(events)
    decreases |events|
  {
    if ranges != [] {
      var n, r := |events| - 1, ranges[|ranges| - 1];
      if r.from == n {
        SinglesAtMost(ranges[..|ranges| - 1], events[..n]);
      } else {
        SinglesOfPrefix(ranges, events);
        SinglesAtMost(ranges, events[..n]);
      }
    }
  }

  /** A live last event is the last range. */
  lemma LastSingle(ranges: seq<Range>, events: seq<Event>)
    requires Singles(ranges, events) && |ranges| == LiveCount(events) && events != [] && Live(events[|events| - 1])
    ensures ranges != [] && ranges[|ranges| - 1].from == |events| - 1
  {
    hide Singles;
    LastIsIn(ranges, events);
    if ranges != [] && ranges[|ranges| - 1].from != |events| - 1 {
      SinglesOfPrefix(ranges, events);
      SinglesAtMost(ranges, events[..|events| - 1]);
    }
  }

  lemma LastIsIn(ranges: seq<Range>, events: seq<Event>)
    requires Singles(ranges, events)
    ensures ranges != [] ==> ranges[|ranges| - 1].from < |events|
  {
  }

  /** As many single ranges as live events are all of them. */
  lemma {:induction false} SinglesCover(ranges: seq<Range>, events: seq<Event>)
    requires Singles(ranges, events) && |ranges| == LiveCount(events)
    ensures forall k :: 0 <= k < |events| && Live(events[k]) ==> exists i :: 0 <= i < |ranges| && ranges[i].from == k
  {
    if events != [] {
      var n := |events| - 1;
      if Live(events[n]) {
        LastSingle(ranges, events);
        SinglesCover(ranges[..|ranges| - 1], events[..n]);
      } else {
        SinglesCover(ranges, events[..n]);
      }
    }
  }

  lemma NoRanges(events: seq<Event>, runs: nat)
    ensures RangesOk([], events, runs) && AllNever([]) && Covered([], events, 0) && Singles([], events) && LiveCount(events[..0]) == 0
  {
  }

  /** Every live event before n is in a range. */
  ghost predicate Covered(ranges: seq<Range>, events: seq<Event>, n: nat)
    requires n <= |events|
  {
    forall k :: 0 <= k < n && Live(events[k]) ==> InBatch(ranges, 0, |ranges|, k)
  }

  lemma CoveredSkip(ranges: seq<Range>, events: seq<Event>, start: nat, n: nat)
    requires start <= n <= |events| && Covered(ranges, events, start) && forall k :: start <= k < n ==> !Live(events[k])
    ensures Covered(ranges, events, n)
  {
  }

  lemma CoveredAppend(ranges: seq<Range>, events: seq<Event>, r: Range)
    requires r.from <= r.to < |events| && Covered(ranges, events, r.from)
    ensures Covered(ranges + [r], events, r.to + 1)
  {
    forall k | 0 <= k < r.to + 1 && Live(events[k])
      ensures InBatch(ranges + [r], 0, |ranges| + 1, k)
    {
      if k < r.from {
        var i :| 0 <= i < |ranges| && InRange(ranges[i], k);
        assert (ranges + [r])[i] == ranges[i];
      } else {
        assert InRange((ranges + [r])[|ranges|], k);
      }
    }
  }

  lemma AppendSingle(ranges: seq<Range>, events: seq<Event>, from: nat)
    requires Singles(ranges, events) && (ranges != [] ==> ranges[|ranges| - 1].to < from) && from < |events| && Live(events[from])
    ensures Singles(ranges + [Range(from, from, Never)], events)
    ensures LiveCount(events[..from + 1]) == LiveCount(events[..from]) + 1
  {
    assert events[..from + 1][..from] == events[..from];
    forall i | 0 <= i < |ranges|
      ensures ranges[i].from < from
    {
      assert i < |ranges| - 1 ==> ranges[i].from < ranges[|ranges| - 1].from;
    }
  }

  lemma AppendRange(ranges: seq<Range>, events: seq<Event>, runs: nat, r: Range)
    requires RangesOk(ranges, events, runs) && (ranges != [] ==> ranges[|ranges| - 1].to < r.from)
    requires r.from <= r.to < |events| && r.removed == Never && Live(events[r.from])
    ensures RangesOk(ranges + [r], events, runs)
    ensures AllNever(ranges) ==> AllNever(ranges + [r])
  {
    forall i | 0 <= i < |ranges|
      ensures ranges[i].to < r.from
    {
      assert i < |ranges| - 1 ==> ranges[i].to < ranges[|ranges| - 1].from;
    }
    forall i | 0 <= i < |ranges| + 1
      ensures RangeOk((ranges + [r])[i], events, runs)
    {
      assert i < |ranges| ==> RangeOk(ranges[i], events, runs);
    }
  }

  lemma StillBefore(events: seq<Event>, ranges: seq<Range>, runs: nat)
    requires Before(events, runs) && RangesOk(ranges, events, runs)
    ensures Before(events, runs + 1) && RangesOk(ranges, events, runs + 1)
  {
    forall i | 0 <= i < |ranges|
      ensures RangeOk(ranges[i], events, runs + 1)
    {
      assert RangeOk(ranges[i], events, runs);
    }
  }

  lemma RangeAt(events: seq<Event>, ranges: seq<Range>, i: nat, runs: nat)
    requires RangesOk(ranges, events, runs) && i < |ranges|
    ensures ranges[i].from <= ranges[i].to < |events|
    ensures ranges[i].removed.At? ==> ranges[i].removed.run < runs
  {
    assert RangeOk(ranges[i], events, runs);
  }

  lemma {:induction false} AllLive(trace: seq<Op>, events: seq<Event>)
    requires |events| == |trace| && forall k :: 0 <= k < |trace| ==> events[k] == Event(trace[k], Never)
    ensures LiveOps(events) == trace
  {
    if events != [] {
      AllLive(trace[..|trace| - 1], events[..|events| - 1]);
      assert trace == trace[..|trace| - 1] + [trace[|trace| - 1]];
    }
  }

  lemma {:induction false} NoneUsed(used: seq<bool>, v: nat)
    requires v < |used| && forall u :: 0 <= u < |used| ==> !used[u]
    ensures Rank(used, v) == 0
  {
    if v > 0 {
      NoneUsed(used, v - 1);
    }
  }

  lemma {:induction false} RankUpdate(used: seq<bool>, idx: nat, v: nat)
    requires 0 < idx < |used| && v < |used| && !used[idx]
    ensures Rank(used[idx := true], v) == Rank(used, v) + if idx <= v then 1 else 0
  {
    if v > 0 {
      RankUpdate(used, idx, v - 1);
    }
  }

  lemma UsesOneMore(events: seq<Event>, k: nat)
    requires k < |events|
    ensures forall v :: UsesVar(events[..k + 1], v) <==> UsesVar(events[..k], v) || (Live(events[k]) && VarOf(events[k].op) == v)
  {
    forall v
      ensures UsesVar(events[..k + 1], v) <==> UsesVar(events[..k], v) || (Live(events[k]) && VarOf(events[k].op) == v)
    {
      assert forall j :: 0 <= j < k ==> events[..k + 1][j] == events[..k][j];
      assert events[..k + 1][k] == events[k];
    }
  }
}
