/** The filter with which clauses that were seen before are recognised. */
module ClauseFilters {

  const NUM_BITS: nat := 26843543

  const TWO_TO_THE_32: nat := 0x1_0000_0000

  const PRIMES: seq<nat> :=
    [2038072819, 2038073287, 2038073761, 2038074317,
     2038072823, 2038073321, 2038073767, 2038074319,
     2038072847, 2038073341, 2038073789, 2038074329]

  function Abs(x: int): nat {
    if x < 0 then -x else x
  }

  /** The prime with which a literal is multiplied. */
  function Prime(lit: int, which: int): nat {
    PRIMES[Abs(which * lit) % |PRIMES|]
  }

  /** What one literal contributes, in unsigned 32-bit arithmetic. The remainder of a negative
      product is negative in C, and abs takes its sign away. */
  function Term(lit: int, which: int): nat {
    lit * Prime(lit, which) % TWO_TO_THE_32
  }

  /** Bitwise exclusive or. */
  function Xor(a: nat, b: nat): nat
    decreases a + b
  {
    if a == 0 && b == 0 then 0 else (if a % 2 == b % 2 then 0 else 1) + 2 * Xor(a / 2, b / 2)
  }

  function Mix(lits: seq<int>, which: int): nat {
    if lits == [] then 0 else Xor(Mix(lits[..|lits| - 1], which), Term(lits[|lits| - 1], which))
  }

  function Slot(res: nat): nat {
    res % NUM_BITS
  }

  /** The first literal does not count. */
  function Hash(cls: seq<int>, which: int): nat {
    Slot(if cls == [] then 0 else Mix(cls[1..], which))
  }

  method CommutativeHashFunction(cls: seq<int>, which: int) returns (h: nat)
    ensures h == Hash(cls, which)
  {
    hide Term, Slot;
    var res: nat := 0;
    var j := 1;
    while j < |cls|
      invariant 1 <= j && (cls == [] ==> res == 0)
      invariant cls != [] ==> j <= |cls| && res == Mix(cls[1..j], which)
    {
      assert cls[1..j + 1][..j - 1] == cls[1..j];
      res := Xor(res, Term(cls[j], which));
      j := j + 1;
    }
    assert cls != [] ==> cls[1..j] == cls[1..];
    h := Slot(res);
  }

  // ---------- the order of the other literals does not count ----------

  lemma {:induction false} XorZero(a: nat)
    ensures Xor(a, 0) == a == Xor(0, a) && Xor(a, a) == 0
  {
    if a > 0 {
      XorZero(a / 2);
    }
  }

  lemma {:induction false} XorSwap(a: nat, b: nat)
    ensures Xor(a, b) == Xor(b, a)
    decreases a + b
  {
    if a + b > 0 {
      XorSwap(a / 2, b / 2);
    }
  }

  lemma {:induction false} XorAssociative(a: nat, b: nat, c: nat)
    ensures Xor(Xor(a, b), c) == Xor(a, Xor(b, c))
    decreases a + b + c
  {
    hide Xor;
    if a + b + c == 0 {
      XorZero(0);
    } else {
      XorHalf(a, b);
      XorHalf(b, c);
      XorHalf(Xor(a, b), c);
      XorHalf(a, Xor(b, c));
      XorAssociative(a / 2, b / 2, c / 2);
    }
  }

  /** The last bit and the others. */
  lemma XorHalf(a: nat, b: nat)
    ensures Xor(a, b) == Xor(a, b) % 2 + 2 * Xor(a / 2, b / 2)
    ensures Xor(a, b) % 2 == (if a % 2 == b % 2 then 0 else 1) && Xor(a, b) / 2 == Xor(a / 2, b / 2)
  {
    hide Xor;
    var bit: nat, h := if a % 2 == b % 2 then 0 else 1, Xor(a / 2, b / 2);
    LastBit(bit, h);
    XorSplit(a, b);
    assert Xor(a, b) == bit + 2 * h;
  }

  lemma XorSplit(a: nat, b: nat)
    ensures Xor(a, b) == (if a % 2 == b % 2 then 0 else 1) + 2 * Xor(a / 2, b / 2)
  {
  }

  lemma LastBit(bit: nat, h: nat)
    requires bit <= 1
    ensures (bit + 2 * h) % 2 == bit && (bit + 2 * h) / 2 == h
  {
  }

  /** Exclusive or with the same number can be undone. */
  lemma XorCancel(a: nat, b: nat, c: nat)
    ensures Xor(a, c) == Xor(b, c) <==> a == b
  {
    XorAssociative(a, c, c);
    XorAssociative(b, c, c);
    XorZero(a);
    XorZero(b);
    XorZero(c);
  }

  lemma {:induction false} MixConcat(a: seq<int>, b: seq<int>, which: int)
    ensures Mix(a + b, which) == Xor(Mix(a, which), Mix(b, which))
    decreases |b|
  {
    hide Term, Xor;
    if b == [] {
      assert a + b == a;
      XorZero(Mix(a, which));
    } else {
      var n := |b| - 1;
      assert (a + b)[..|a + b| - 1] == a + b[..n];
      MixConcat(a, b[..n], which);
      XorAssociative(Mix(a, which), Mix(b[..n], which), Term(b[n], which));
    }
  }

  /** A literal may be taken out from anywhere. */
  lemma MixWithout(a: seq<int>, i: nat, which: int)
    requires i < |a|
    ensures Mix(a, which) == Xor(Mix(a[..i] + a[i + 1..], which), Term(a[i], which))
  {
    hide Term, Xor;
    var x, y, z := Mix(a[..i], which), Mix(a[i + 1..], which), Term(a[i], which);
    assert a == a[..i + 1] + a[i + 1..] && a[..i + 1][..i] == a[..i];
    MixConcat(a[..i + 1], a[i + 1..], which);
    MixConcat(a[..i], a[i + 1..], which);
    XorAssociative(x, z, y);
    XorSwap(z, y);
    XorAssociative(x, y, z);
  }

  lemma {:induction false} MixPermuted(a: seq<int>, b: seq<int>, which: int)
    requires multiset(a) == multiset(b)
    ensures Mix(a, which) == Mix(b, which)
    decreases |a|
  {
    hide Term, Xor;
    if a == [] {
      assert multiset(b) == multiset{};
      assert forall x :: x in b ==> x in multiset(b);
      assert b == [];
    } else {
      var n := |a| - 1;
      assert a == a[..n] + [a[n]];
      assert a[n] in multiset(b);
      var i :| 0 <= i < |b| && b[i] == a[n];
      assert b == b[..i] + [b[i]] + b[i + 1..];
      assert multiset(a[..n]) == multiset(a) - multiset{a[n]};
      assert multiset(b[..i] + b[i + 1..]) == multiset(b) - multiset{b[i]};
      MixPermuted(a[..n], b[..i] + b[i + 1..], which);
      MixWithout(b, i, which);
    }
  }

  // ---------- what the sum tells apart ----------

  /** Two literals are multiplied with the same prime in the first hash exactly if their variables
      agree modulo 12, in the second modulo 6, in the third modulo 4, and in the fourth modulo 3. */
  lemma PrimeShared(x: int, y: int)
    ensures Prime(x, 1) == Prime(y, 1) <==> Abs(x) % 12 == Abs(y) % 12
    ensures Prime(x, 2) == Prime(y, 2) <==> Abs(x) % 6 == Abs(y) % 6
    ensures Prime(x, 3) == Prime(y, 3) <==> Abs(x) % 4 == Abs(y) % 4
    ensures Prime(x, 4) == Prime(y, 4) <==> Abs(x) % 3 == Abs(y) % 3
  {
    hide Prime;
    PrimeAt(x);
    PrimeAt(y);
    PrimesDiffer(Abs(x) % 12, Abs(y) % 12);
    PrimesDiffer(2 * (Abs(x) % 6), 2 * (Abs(y) % 6));
    PrimesDiffer(3 * (Abs(x) % 4), 3 * (Abs(y) % 4));
    PrimesDiffer(4 * (Abs(x) % 3), 4 * (Abs(y) % 3));
  }

  lemma PrimesDiffer(i: nat, j: nat)
    requires i < |PRIMES| && j < |PRIMES|
    ensures PRIMES[i] == PRIMES[j] <==> i == j
    ensures PRIMES[i] % 2 == 1
  {
  }

  /** Which prime each hash takes for a literal. */
  lemma PrimeAt(x: int)
    ensures Prime(x, 1) == PRIMES[Abs(x) % 12] && Prime(x, 2) == PRIMES[2 * (Abs(x) % 6)]
    ensures Prime(x, 3) == PRIMES[3 * (Abs(x) % 4)] && Prime(x, 4) == PRIMES[4 * (Abs(x) % 3)]
  {
    Multiples(Abs(x));
  }

  lemma Multiples(a: nat)
    ensures 2 * a % 12 == 2 * (a % 6) && 3 * a % 12 == 3 * (a % 4) && 4 * a % 12 == 4 * (a % 3)
  {
    Remainder(2 * a, a / 6, 2 * (a % 6));
    Remainder(3 * a, a / 4, 3 * (a % 4));
    Remainder(4 * a, a / 3, 4 * (a % 3));
  }

  lemma Remainder(a: nat, q: nat, r: nat)
    requires a == 12 * q + r && r < 12
    ensures a % 12 == r
  {
  }

  function Pow2(k: nat): (r: nat)
    ensures r > 0
  {
    if k == 0 then 1 else 2 * Pow2(k - 1)
  }

  /** An odd factor does not help a product to be divisible by a power of two. */
  lemma {:induction false} OddCancels(p: int, d: int, q: int, k: nat) returns (r: int)
    requires p % 2 == 1 && p * d == q * Pow2(k)
    ensures d == r * Pow2(k)
    decreases k
  {
    if k == 0 {
      return d;
    }
    var e := d / 2;
    EvenProduct(p, d, q * Pow2(k - 1));
    assert p * d == 2 * (p * e) && q * Pow2(k) == 2 * (q * Pow2(k - 1));
    r := OddCancels(p, e, q, k - 1);
    assert r * Pow2(k) == 2 * (r * Pow2(k - 1));
  }

  lemma EvenProduct(p: int, d: int, h: int)
    requires p % 2 == 1 && p * d == 2 * h
    ensures d == 2 * (d / 2)
  {
    var a, b := p / 2, d / 2;
    assert p == 2 * a + 1 && d == 2 * b + d % 2;
    assert p * d == 2 * (a * d) + d;
    assert d == 2 * (h - a * d);
  }

  lemma SameRemainder(a: int, b: int, m: nat)
    requires m > 0
    ensures a % m == b % m <==> exists q :: a - b == q * m
  {
    assert a == a / m * m + a % m && b == b / m * m + b % m;
    if a % m == b % m {
      assert a - b == (a / m - b / m) * m;
    }
    if q :| a - b == q * m {
      SameIfMultiple(a, b, q, m);
    }
  }

  lemma SameIfMultiple(a: int, b: int, q: int, m: nat)
    requires m > 0 && a - b == q * m
    ensures a % m == b % m
  {
    var d := a % m - b % m;
    var k := q - a / m + b / m;
    assert d == k * m;
    NoSmallMultiple(d, k, m);
  }

  lemma NoSmallMultiple(d: int, k: int, m: int)
    requires -m < d < m && d == k * m
    ensures d == 0
  {
    Grows(k, m);
    Grows(-k, m);
  }

  lemma Grows(k: int, m: int)
    requires m > 0
    ensures k >= 1 ==> k * m >= m
  {
  }

  /** With the same prime, two literals contribute the same only if they are equal modulo 2^32. */
  lemma TermInjective(x: int, y: int, which: int)
    requires Prime(x, which) == Prime(y, which)
    ensures Term(x, which) == Term(y, which) <==> x % TWO_TO_THE_32 == y % TWO_TO_THE_32
  {
    hide Prime;
    OddPrime(x, which);
    ProductInjective(x, y, Prime(x, which));
  }

  lemma ProductInjective(x: int, y: int, p: int)
    requires p % 2 == 1
    ensures x * p % TWO_TO_THE_32 == y * p % TWO_TO_THE_32 <==> x % TWO_TO_THE_32 == y % TWO_TO_THE_32
  {
    var m := TWO_TO_THE_32;
    assert Pow2(8) == 0x100 && Pow2(16) == 0x1_0000 && Pow2(24) == 0x100_0000;
    assert Pow2(32) == m;
    SameRemainder(x * p, y * p, m);
    SameRemainder(x, y, m);
    assert x * p - y * p == p * (x - y);
    if q :| x * p - y * p == q * m {
      var r := OddCancels(p, x - y, q, 32);
    }
    if q :| x - y == q * m {
      assert p * (x - y) == (q * p) * m;
    }
  }

  lemma OddPrime(x: int, which: int)
    ensures Prime(x, which) % 2 == 1
  {
    PrimesDiffer(Abs(which * x) % |PRIMES|, 0);
  }

  /** Exchanging one literal changes the sum exactly if the two contribute differently. */
  lemma MixChanged(a: seq<int>, i: nat, y: int, which: int)
    requires i < |a|
    ensures Mix(a, which) == Mix(a[i := y], which) <==> Term(a[i], which) == Term(y, which)
  {
    hide Term, Xor;
    var b := a[i := y];
    var rest := Mix(a[..i] + a[i + 1..], which);
    assert b[..i] + b[i + 1..] == a[..i] + a[i + 1..];
    MixWithout(a, i, which);
    MixWithout(b, i, which);
    XorSwap(rest, Term(a[i], which));
    XorSwap(rest, Term(y, which));
    XorCancel(Term(a[i], which), Term(y, which), rest);
  }

  /** So all four sums change with a literal that is replaced by another of the same variable
      modulo 12, as all literals fit into 32 bits. */
  lemma SumsChange(a: seq<int>, i: nat, y: int)
    requires i < |a| && Abs(a[i]) % 12 == Abs(y) % 12 && a[i] != y
    requires Abs(a[i]) < TWO_TO_THE_32 / 2 && Abs(y) < TWO_TO_THE_32 / 2
    ensures forall which :: 1 <= which <= 4 ==> Mix(a, which) != Mix(a[i := y], which)
  {
    hide Term, Prime, Mix;
    SameResidue(a[i], y);
    assert a[i] % TWO_TO_THE_32 != y % TWO_TO_THE_32;
    forall which | 1 <= which <= 4
      ensures Mix(a, which) != Mix(a[i := y], which)
    {
      MixChanged(a, i, y, which);
      TermInjective(a[i], y, which);
    }
  }

  lemma SameResidue(x: int, y: int)
    requires Abs(x) % 12 == Abs(y) % 12
    ensures forall which :: 1 <= which <= 4 ==> Prime(x, which) == Prime(y, which)
  {
    hide Prime;
    Coarser(Abs(x));
    Coarser(Abs(y));
    PrimeShared(x, y);
  }

  lemma Coarser(a: nat)
    ensures a % 6 == a % 12 % 6 && a % 4 == a % 12 % 4 && a % 3 == a % 12 % 3
  {
    SameIfMultiple(a, a % 12, 2 * (a / 12), 6);
    SameIfMultiple(a, a % 12, 3 * (a / 12), 4);
    SameIfMultiple(a, a % 12, 4 * (a / 12), 3);
  }

  /** If all variables after the first literal are multiples of 12 the four hashes are one. */
  lemma {:induction false} OneHash(a: seq<int>, which: int)
    requires forall k :: 0 <= k < |a| ==> Abs(a[k]) % 12 == 0
    ensures 1 <= which <= 4 ==> Mix(a, which) == Mix(a, 1)
  {
    hide Xor, Prime;
    if a != [] {
      OneHash(a[..|a| - 1], which);
      SameResidue(a[|a| - 1], 0);
      ZeroPrime(which);
    }
  }

  lemma ZeroPrime(which: int)
    ensures Prime(0, which) == PRIMES[0] == Prime(0, 1)
  {
    assert which * 0 == 0;
  }

  /** Two clauses share a hash exactly if their sums differ by a multiple of the number of slots. */
  lemma HashShared(a: seq<int>, b: seq<int>, i: int, j: int)
    requires a != [] && b != []
    ensures Hash(a, i) == Hash(b, j) <==> exists q :: Mix(a[1..], i) - Mix(b[1..], j) == q * NUM_BITS
  {
    SameRemainder(Mix(a[1..], i), Mix(b[1..], j), NUM_BITS);
  }

  // ---------- small clauses are told apart ----------

  /** The slots of the literals with variables up to 6. */
  lemma SlotsOne()
    ensures Slot(Term(1, 1)) == 24807562 && Slot(Term(1, 2)) == 24808036
    ensures Slot(Term(1, 3)) == 24808592 && Slot(Term(1, 4)) == 24807098
  {
    assert Term(1, 1) == 2038073287 && Term(1, 2) == 2038073761;
    assert Term(1, 3) == 2038074317 && Term(1, 4) == 2038072823;
  }

  lemma SlotsMinusOne()
    ensures Slot(Term(-1, 1)) == 2036397 && Slot(Term(-1, 2)) == 2035923
    ensures Slot(Term(-1, 3)) == 2035367 && Slot(Term(-1, 4)) == 2036861
  {
    assert Term(-1, 1) == 2256894009 && Term(-1, 2) == 2256893535;
    assert Term(-1, 3) == 2256892979 && Term(-1, 4) == 2256894473;
  }

  lemma SlotsTwo()
    ensures Slot(Term(2, 1)) == 22772529 && Slot(Term(2, 2)) == 22770653
    ensures Slot(Term(2, 3)) == 22772541 && Slot(Term(2, 4)) == 22770701
  {
    assert Term(2, 1) == 4076147522 && Term(2, 2) == 4076145646;
    assert Term(2, 3) == 4076147534 && Term(2, 4) == 4076145694;
  }

  lemma SlotsMinusTwo()
    ensures Slot(Term(-2, 1)) == 4071430 && Slot(Term(-2, 2)) == 4073306
    ensures Slot(Term(-2, 3)) == 4071418 && Slot(Term(-2, 4)) == 4073258
  {
    assert Term(-2, 1) == 218819774 && Term(-2, 2) == 218821650;
    assert Term(-2, 3) == 218819762 && Term(-2, 4) == 218821602;
  }

  lemma SlotsThree()
    ensures Slot(Term(3, 1)) == 20738274 && Slot(Term(3, 2)) == 20736624
    ensures Slot(Term(3, 3)) == 20735346 && Slot(Term(3, 4)) == 20733780
  {
    assert Term(3, 1) == 1819255655 && Term(3, 2) == 1819254005;
    assert Term(3, 3) == 1819252727 && Term(3, 4) == 1819251161;
  }

  lemma SlotsMinusThree()
    ensures Slot(Term(-3, 1)) == 6105685 && Slot(Term(-3, 2)) == 6107335
    ensures Slot(Term(-3, 3)) == 6108613 && Slot(Term(-3, 4)) == 6110179
  {
    assert Term(-3, 1) == 2475711641 && Term(-3, 2) == 2475713291;
    assert Term(-3, 3) == 2475714569 && Term(-3, 4) == 2475716135;
  }

  lemma SlotsFour()
    ensures Slot(Term(4, 1)) == 18697347 && Slot(Term(4, 2)) == 18697443
    ensures Slot(Term(4, 3)) == 18697331 && Slot(Term(4, 4)) == 18697347
  {
    assert Term(4, 1) == 3857323996 && Term(4, 2) == 3857324092;
    assert Term(4, 3) == 3857323980 && Term(4, 4) == 3857323996;
  }

  lemma SlotsMinusFour()
    ensures Slot(Term(-4, 1)) == 8146612 && Slot(Term(-4, 2)) == 8146516
    ensures Slot(Term(-4, 3)) == 8146628 && Slot(Term(-4, 4)) == 8146612
  {
    assert Term(-4, 1) == 437643300 && Term(-4, 2) == 437643204;
    assert Term(-4, 3) == 437643316 && Term(-4, 4) == 437643300;
  }

  lemma SlotsFive()
    ensures Slot(Term(5, 1)) == 16662976 && Slot(Term(5, 2)) == 16665316
    ensures Slot(Term(5, 3)) == 16667956 && Slot(Term(5, 4)) == 16660606
  {
    assert Term(5, 1) == 1600432013 && Term(5, 2) == 1600434353;
    assert Term(5, 3) == 1600436993 && Term(5, 4) == 1600429643;
  }

  lemma SlotsMinusFive()
    ensures Slot(Term(-5, 1)) == 10180983 && Slot(Term(-5, 2)) == 10178643
    ensures Slot(Term(-5, 3)) == 10176003 && Slot(Term(-5, 4)) == 10183353
  {
    assert Term(-5, 1) == 2694535283 && Term(-5, 2) == 2694532943;
    assert Term(-5, 3) == 2694530303 && Term(-5, 4) == 2694537653;
  }

  lemma SlotsSix()
    ensures Slot(Term(6, 1)) == 14629705 && Slot(Term(6, 2)) == 14624017
    ensures Slot(Term(6, 3)) == 14629705 && Slot(Term(6, 4)) == 14624017
  {
    assert Term(6, 1) == 3638508010 && Term(6, 2) == 3638502322;
    assert Term(6, 3) == 3638508010 && Term(6, 4) == 3638502322;
  }

  lemma SlotsMinusSix()
    ensures Slot(Term(-6, 1)) == 12214254 && Slot(Term(-6, 2)) == 12219942
    ensures Slot(Term(-6, 3)) == 12214254 && Slot(Term(-6, 4)) == 12219942
  {
    assert Term(-6, 1) == 656459286 && Term(-6, 2) == 656464974;
    assert Term(-6, 3) == 656459286 && Term(-6, 4) == 656464974;
  }

  lemma PairHash(g: int, x: int, which: int)
    ensures Hash([g, x], which) == Slot(Term(x, which))
  {
    hide Term, Xor, Slot;
    assert [g, x][1..] == [x] && [x][..0] == [];
    assert Mix([x], which) == Xor(Mix([], which), Term(x, which));
    XorZero(Term(x, which));
  }

  lemma HashPermuted(a: seq<int>, b: seq<int>, which: int)
    requires a != [] && b != [] && multiset(a[1..]) == multiset(b[1..])
    ensures Hash(a, which) == Hash(b, which)
  {
    MixPermuted(a[1..], b[1..], which);
  }

  // ---------- the filter ----------

  datatype Filter = Filter(s1: set<nat>, unitSet: set<int>)

  function Bits(cls: seq<int>): set<nat> {
    {Hash(cls, 1), Hash(cls, 2), Hash(cls, 3), Hash(cls, 4)}
  }

  /** The filter takes the clause for one that it has seen. */
  predicate Known(f: Filter, cls: seq<int>) {
    if |cls| == 1 then cls[0] in f.unitSet else Bits(cls) <= f.s1
  }

  function Registered(f: Filter, cls: seq<int>): Filter {
    if |cls| == 1 then f.(unitSet := f.unitSet + {cls[0]}) else f.(s1 := f.s1 + Bits(cls))
  }

  /** Nothing is forgotten, and a registered clause is known. */
  lemma RegisteredKnown(f: Filter, cls: seq<int>)
    ensures Known(Registered(f, cls), cls)
    ensures forall c :: Known(f, c) ==> Known(Registered(f, cls), c)
    ensures Known(f, cls) ==> Registered(f, cls) == f
  {
  }

  /** Clauses of at least two literals that agree in all but the first, in any order, are the same
      to the filter; so after one of them the others are never let in. */
  lemma SameToTheFilter(f: Filter, a: seq<int>, b: seq<int>)
    requires |a| >= 2 && |b| >= 2 && multiset(a[1..]) == multiset(b[1..])
    ensures Known(f, a) <==> Known(f, b)
    ensures Known(Registered(f, a), b)
  {
    HashPermuted(a, b, 1);
    HashPermuted(a, b, 2);
    HashPermuted(a, b, 3);
    HashPermuted(a, b, 4);
  }

  /** Clauses of two literals that differ in the second one are told apart, for all variables up
      to 6. */
  lemma SmallDiffer(g: int, h: int, x: int, y: int)
    requires 1 <= Abs(x) <= 6 && 1 <= Abs(y) <= 6
    ensures Known(Registered(Filter({}, {}), [g, y]), [h, x]) <==> x == y
  {
    hide Term, Slot, Hash;
    PairBits(g, y);
    PairBits(h, x);
    if x != y {
      SlotsApart(x, y, 1);
      SlotsApart(x, y, 2);
      SlotsApart(x, y, 3);
      SlotsApart(x, y, 4);
      assert Slot(Term(x, 1)) in Bits([h, x]);
    }
  }

  lemma SlotsApart(x: int, y: int, which: int)
    requires 1 <= Abs(x) <= 6 && 1 <= Abs(y) <= 6 && x != y && 1 <= which <= 4
    ensures Slot(Term(x, 1)) != Slot(Term(y, which))
  {
    hide Term, Slot;
    SlotsOne();
    SlotsMinusOne();
    SlotsTwo();
    SlotsMinusTwo();
    SlotsThree();
    SlotsMinusThree();
    SlotsFour();
    SlotsMinusFour();
    SlotsFive();
    SlotsMinusFive();
    SlotsSix();
    SlotsMinusSix();
  }

  lemma PairBits(g: int, x: int)
    ensures Bits([g, x]) == {Slot(Term(x, 1)), Slot(Term(x, 2)), Slot(Term(x, 3)), Slot(Term(x, 4))}
  {
    PairHash(g, x, 1);
    PairHash(g, x, 2);
    PairHash(g, x, 3);
    PairHash(g, x, 4);
  }

  class ClauseFilter {
    var s1: set<nat>
    var unitSet: set<int>

    function View(): Filter
      reads this
    {
      Filter(s1, unitSet)
    }

    constructor ()
      ensures View() == Filter({}, {}) && forall c :: !Known(View(), c)
    {
      s1, unitSet := {}, {};
      new;
      forall c: seq<int>
        ensures !Known(View(), c)
      {
        assert Hash(c, 1) in Bits(c);
      }
    }

    /** Is the clause new? In any case it is known afterwards. */
    method RegisterClause(cls: seq<int>) returns (isNew: bool)
      modifies this
      ensures isNew <==> !Known(old(View()), cls)
      ensures View() == Registered(old(View()), cls)
      ensures Known(View(), cls) && forall c :: Known(old(View()), c) ==> Known(View(), c)
    {
      RegisteredKnown(View(), cls);
      if |cls| == 1 {
        if cls[0] in unitSet {
          return false;
        }
        unitSet := unitSet + {cls[0]};
        return true;
      }
      var h1 := CommutativeHashFunction(cls, 1);
      var h2 := CommutativeHashFunction(cls, 2);
      var h3 := CommutativeHashFunction(cls, 3);
      var h4 := CommutativeHashFunction(cls, 4);
      if h1 in s1 && h2 in s1 && h3 in s1 && h4 in s1 {
        isNew := false;
      } else {
        s1 := s1 + {h1} + {h2} + {h3} + {h4};
        isNew := true;
      }
      assert View() == Registered(old(View()), cls);
    }

    method Clear()
      modifies this`s1
      ensures View() == old(View()).(s1 := {})
    {
      s1 := {};
    }
  }
}
