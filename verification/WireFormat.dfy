/** How clauses are written into a message and read from it. */
module WireFormat {
  import opened ClauseManagers
  import opened ClauseDatabases
  import opened ClauseFilters

  /** The clauses one after the other, each with a zero behind it. */
  function Encoded(cs: seq<seq<int>>): seq<int> {
    if cs == [] then [] else Encoded(cs[..|cs| - 1]) + cs[|cs| - 1] + [0]
  }

  /** Reading a message: the clauses that are complete, and the literals of the one that is not. */
  datatype Reading = Reading(clauses: seq<seq<int>>, rest: seq<int>)

  function Parse(words: seq<int>): Reading {
    if words == [] then Reading([], [])
    else
      var r := Parse(words[..|words| - 1]);
      ReadWord(r, words[|words| - 1])
  }

  function ReadWord(r: Reading, w: int): Reading {
    if w == 0 then Reading(r.clauses + [r.rest], []) else Reading(r.clauses, r.rest + [w])
  }

  predicate NoZero(c: seq<int>) {
    forall i :: 0 <= i < |c| ==> c[i] != 0
  }

  lemma ParseStep(words: seq<int>, w: int)
    ensures Parse(words + [w]) == ReadWord(Parse(words), w)
  {
    assert (words + [w])[..|words|] == words;
  }

  lemma {:induction false} ParseLiterals(words: seq<int>, c: seq<int>)
    requires NoZero(c)
    ensures Parse(words + c) == Reading(Parse(words).clauses, Parse(words).rest + c)
    decreases |c|
  {
    hide Parse;
    if c == [] {
      assert words + c == words && Parse(words).rest + c == Parse(words).rest;
    } else {
      var n := |c| - 1;
      ParseLiterals(words, c[..n]);
      OneMoreLiteral(words, c, n);
    }
  }

  lemma OneMoreLiteral(words: seq<int>, c: seq<int>, n: nat)
    requires |c| == n + 1 && c[n] != 0
    requires Parse(words + c[..n]) == Reading(Parse(words).clauses, Parse(words).rest + c[..n])
    ensures Parse(words + c) == Reading(Parse(words).clauses, Parse(words).rest + c)
  {
    hide Parse;
    LastApart(words, c, n);
    LastApart(Parse(words).rest, c, n);
    ParseStep(words + c[..n], c[n]);
  }

  lemma LastApart(a: seq<int>, c: seq<int>, n: nat)
    requires |c| == n + 1
    ensures a + c == (a + c[..n]) + [c[n]]
  {
    assert c == c[..n] + [c[n]];
  }

  /** Reading what was written gives the same clauses in the same order. */
  lemma {:induction false} RoundTrip(cs: seq<seq<int>>)
    requires forall k :: 0 <= k < |cs| ==> NoZero(cs[k])
    ensures Parse(Encoded(cs)) == Reading(cs, [])
  {
    if cs != [] {
      var n := |cs| - 1;
      RoundTrip(cs[..n]);
      ParseLiterals(Encoded(cs[..n]), cs[n]);
      ParseStep(Encoded(cs[..n]) + cs[n], 0);
      assert [] + cs[n] == cs[n] && cs[..n] + [cs[n]] == cs;
    }
  }

  // ---------- what a filter lets through ----------

  /** The clauses of a sequence that the filter does not know when their turn comes. */
  function Fresh(f: Filter, cs: seq<seq<int>>): seq<seq<int>> {
    if cs == [] then []
    else
      var n := |cs| - 1;
      Fresh(f, cs[..n]) + if Known(After(f, cs[..n]), cs[n]) then [] else [cs[n]]
  }

  function After(f: Filter, cs: seq<seq<int>>): Filter {
    if cs == [] then f else Registered(After(f, cs[..|cs| - 1]), cs[|cs| - 1])
  }

  lemma FilterStep(f: Filter, cs: seq<seq<int>>, c: seq<int>)
    ensures After(f, cs + [c]) == Registered(After(f, cs), c)
    ensures Fresh(f, cs + [c]) == Fresh(f, cs) + if Known(After(f, cs), c) then [] else [c]
  {
    assert (cs + [c])[..|cs|] == cs;
  }

  // ---------- does a selection fit into the buffer? ----------

  function Literals(cs: seq<seq<int>>): nat {
    if cs == [] then 0 else Literals(cs[..|cs| - 1]) + |cs[|cs| - 1]|
  }

  lemma {:induction false} EncodedLength(cs: seq<seq<int>>)
    ensures |Encoded(cs)| == Literals(cs) + |cs|
  {
    if cs != [] {
      EncodedLength(cs[..|cs| - 1]);
    }
  }

  /** All clauses but the units cost at least two literals. */
  lemma {:induction false} UnitsAreCheapest(g: seq<nat>)
    ensures Cost(g) >= Count(g)
    ensures g != [] ==> Cost(g) + g[0] >= 2 * Count(g)
  {
    if g != [] {
      var n := |g| - 1;
      UnitsAreCheapest(g[..n]);
      Scale(1, n + 1, g[n]);
      if n > 0 {
        Scale(2, n + 1, g[n]);
      }
    }
  }

  /** The words of a greedy selection are fewer than twice the budget exactly when there are not
      enough unit clauses to use it up. */
  lemma FitsUnlessAllUnits(g: seq<nat>, available: seq<nat>, budget: nat, m: nat)
    requires Greedy(g, available, budget, m) && budget > 0
    ensures Cost(g) + Count(g) < 2 * budget <==> available == [] || available[0] < budget
  {
    UnitsAreCheapest(g);
    if g != [] && available[0] >= budget {
      AllUnits(g, available, budget, m);
    }
  }

  lemma AllUnits(g: seq<nat>, available: seq<nat>, budget: nat, m: nat)
    requires Greedy(g, available, budget, m) && g != [] && available[0] >= budget
    ensures Cost(g) == budget == Count(g)
  {
    FirstCost(g);
    UnitsAreCheapest(g);
    if m == 0 {
      OnlyUnits(g);
    }
  }

  lemma {:induction false} OnlyUnits(g: seq<nat>)
    requires g != [] && forall i :: 0 < i < |g| ==> g[i] == 0
    ensures Cost(g) == g[0] == Count(g)
  {
    if |g| > 1 {
      OnlyUnits(g[..|g| - 1]);
    }
  }

  lemma {:induction false} FirstCost(g: seq<nat>)
    requires g != []
    ensures Cost(g) >= g[0] && Count(g) >= g[0]
  {
    if |g| > 1 {
      FirstCost(g[..|g| - 1]);
    }
  }

  /** The limit on one size keeps every message of a budget of 1000 literals or more in bounds. */
  lemma FitsFromThousand(g: seq<nat>, buckets: seq<seq<nat>>, clauses: seq<Exchange>, budget: nat, m: nat)
    requires BucketsOk(buckets, clauses) && Greedy(g, Lengths(buckets), budget, m) && budget >= BUCKET_LITERALS
    ensures Cost(g) + Count(g) < 2 * budget
  {
    assert buckets != [] ==> BucketOk(buckets[0], 1, clauses);
    FitsUnlessAllUnits(g, Lengths(buckets), budget, m);
  }

  /** With a smaller budget unit clauses alone fill the buffer to its end: the last zero goes one
      word behind it. */
  lemma FullOfUnits(g: seq<nat>, buckets: seq<seq<nat>>, budget: nat, m: nat)
    requires 0 < budget < BUCKET_LITERALS && Greedy(g, Lengths(buckets), budget, m)
    requires buckets != [] && |buckets[0]| >= budget
    ensures Cost(g) + Count(g) == 2 * budget
  {
    AllUnits(g, Lengths(buckets), budget, m);
  }
}
