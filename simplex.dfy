/** Mapping one feature vector onto the permutohedral lattice of dimension d:
    elevation onto the hyperplane whose coordinates sum to zero, rounding to
    the nearest remainder-0 lattice point, ranking the residuals, correcting
    the point back onto the hyperplane, barycentric weights, and the keys of
    the d+1 vertices of the enclosing simplex and their neighbours. */
module Simplex {
  import opened Sums

  /* ---------------- canonical simplex ---------------- */

  /** Entry (r, c) of the canonical simplex: r in columns 0..d-r and
      r-(d+1) in the remaining columns. */
  function Canonical(d: nat, r: int, c: int): int
  {
    if c <= d - r then r else r - (d + 1)
  }

  function CanonicalRow(d: nat, r: int): (row: seq<int>)
    ensures |row| == d + 1
  {
    seq(d + 1, c => Canonical(d, r, c))
  }

  /** Fills the (d+1) x (d+1) canonical simplex table row by row. */
  method BuildCanonical(d: nat) returns (canonical: array2<int>)
    ensures canonical.Length0 == d + 1 && canonical.Length1 == d + 1
    ensures forall r, c :: 0 <= r <= d && 0 <= c <= d ==> canonical[r, c] == Canonical(d, r, c)
  {
    canonical := new int[d + 1, d + 1];
    for i := 0 to d + 1
      invariant forall r, c :: 0 <= r < i && 0 <= c <= d ==> canonical[r, c] == Canonical(d, r, c)
    {
      for j := 0 to d - i + 1
        invariant forall r, c :: 0 <= r < i && 0 <= c <= d ==> canonical[r, c] == Canonical(d, r, c)
        invariant forall c :: 0 <= c < j ==> canonical[i, c] == i
      {
        canonical[i, j] := i;
      }
      for j := d - i + 1 to d + 1
        invariant forall r, c :: 0 <= r < i && 0 <= c <= d ==> canonical[r, c] == Canonical(d, r, c)
        invariant forall c :: 0 <= c <= d - i ==> canonical[i, c] == i
        invariant forall c :: d - i + 1 <= c < j ==> canonical[i, c] == i - (d + 1)
      {
        canonical[i, j] := i - (d + 1);
      }
    }
  }

  lemma {:induction false} CanonicalPrefixSum(d: nat, r: int, n: nat)
    requires 0 <= r <= d && n <= d + 1
    ensures IntSum(CanonicalRow(d, r)[..n]) ==
            if n <= d - r + 1 then n * r else (d - r + 1) * r + (n - (d - r + 1)) * (r - (d + 1))
  {
    if n > 0 {
      var row := CanonicalRow(d, r);
      assert row[..n][..n - 1] == row[..n - 1];
      CanonicalPrefixSum(d, r, n - 1);
      var k := d - r + 1;
      if n <= k {
        MulSucc(n - 1, r);
      } else {
        MulSucc(n - 1 - k, r - (d + 1));
      }
    }
  }

  lemma MulSucc(a: int, b: int)
    ensures (a + 1) * b == a * b + b
  {
  }

  /** Every row of the canonical simplex sums to zero, and row 0 is all zero. */
  lemma CanonicalRowSumsToZero(d: nat, r: int)
    requires 0 <= r <= d
    ensures IntSum(CanonicalRow(d, r)) == 0
    ensures r == 0 ==> forall c :: 0 <= c <= d ==> CanonicalRow(d, r)[c] == 0
  {
    var row := CanonicalRow(d, r);
    CanonicalPrefixSum(d, r, d + 1);
    assert row[..d + 1] == row;
    assert (d - r + 1) * r + r * (r - (d + 1)) == 0 by {
      assert (d - r + 1) * r + r * (r - (d + 1)) == r * ((d - r + 1) + (r - (d + 1)));
    }
  }

  /* ---------------- elevation ---------------- */

  /** The feature scaled componentwise by the diagonal part of E. */
  function Scaled(f: seq<real>, scale: seq<real>): (c: seq<real>)
    requires |f| == |scale|
    ensures |c| == |f|
  {
    seq(|f|, i requires 0 <= i < |f| => f[i] * scale[i])
  }

  /** The elevated point: coordinate 0 is the sum of all scaled components,
      coordinate j >= 1 the sum of components j.. minus j times component j-1. */
  function Elevation(c: seq<real>): (e: seq<real>)
    ensures |e| == |c| + 1
  {
    seq(|c| + 1, j requires 0 <= j <= |c| =>
      if j == 0 then Sum(c) else Sum(c[j..]) - (j as real) * c[j - 1])
  }

  /** Computes the elevated point with the source's descending loop and
      running suffix sum `sm`. */
  method Elevate(f: seq<real>, scale: seq<real>) returns (elevated: seq<real>)
    requires |f| == |scale|
    ensures elevated == Elevation(Scaled(f, scale))
  {
    var d := |f|;
    ghost var c := Scaled(f, scale);
    var e := new real[d + 1];
    var sm := 0.0;
    var j := d;
    while j > 0
      invariant 0 <= j <= d
      invariant sm == Sum(c[j..])
      invariant forall t :: j < t <= d ==> e[t] == Elevation(c)[t]
    {
      var cf := f[j - 1] * scale[j - 1];
      ElevateStep(c, j, sm, cf);
      e[j] := sm - (j as real) * cf;
      sm := sm + cf;
      j := j - 1;
    }
    e[0] := sm;
    assert c[0..] == c;
    elevated := e[..];
  }

  /** One step of the descending loop of Elevate: coordinate j from the
      running suffix sum, and the suffix sum extended by component j-1. */
  lemma ElevateStep(c: seq<real>, j: int, sm: real, cf: real)
    requires 1 <= j <= |c| && sm == Sum(c[j..]) && cf == c[j - 1]
    ensures Elevation(c)[j] == sm - (j as real) * cf
    ensures sm + cf == Sum(c[j - 1..])
  {
    SumCons(c[j - 1..]);
    assert c[j - 1..][1..] == c[j..];
  }

  lemma ElevationSuffix(c: seq<real>, j: nat)
    requires 1 <= j <= |c|
    ensures Sum(Elevation(c)[j..]) == -(j as real) * Sum(c[j - 1..])
  {
    TelescopeSuffix(Elevation(c), c, j);
  }

  /** Coordinates j.. of a point elevated from `c` sum to -j times the sum
      of components j-1.. of `c`. */
  lemma {:induction false} TelescopeSuffix(e: seq<real>, c: seq<real>, j: nat)
    requires |e| == |c| + 1 && 1 <= j <= |c|
    requires forall k {:trigger Sum(c[k..])} :: j <= k <= |c| ==> e[k] == Sum(c[k..]) - (k as real) * c[k - 1]
    ensures Sum(e[j..]) == -(j as real) * Sum(c[j - 1..])
    decreases |c| - j
  {
    if j == |c| {
      assert e[j + 1..] == [] && c[j..] == [];
      assert Sum(c[j..]) == 0.0;
    } else {
      TelescopeSuffix(e, c, j + 1);
    }
    assert e[j] == Sum(c[j..]) - (j as real) * c[j - 1];
    assert Sum(e[j + 1..]) == -((j + 1) as real) * Sum(c[j..]);
    TelescopeStep(e, c, j);
  }

  /** One step of TelescopeSuffix: adding coordinate j to the sum of the
      coordinates after it. */
  lemma TelescopeStep(e: seq<real>, c: seq<real>, j: nat)
    requires |e| == |c| + 1 && 1 <= j <= |c|
    requires e[j] == Sum(c[j..]) - (j as real) * c[j - 1]
    requires Sum(e[j + 1..]) == -((j + 1) as real) * Sum(c[j..])
    ensures Sum(e[j..]) == -(j as real) * Sum(c[j - 1..])
  {
    var rest := Sum(c[j..]);
    SumCons(e[j..]);
    assert e[j..][1..] == e[j + 1..];
    SumCons(c[j - 1..]);
    assert c[j - 1..][1..] == c[j..];
    Regroup(j as real, c[j - 1], rest);
  }

  /** The arithmetic step of TelescopeStep. */
  lemma Regroup(a: real, x: real, s: real)
    ensures (s - a * x) + -(a + 1.0) * s == -a * (x + s)
  {
  }

  /** The elevated point lies on the hyperplane: its coordinates sum to 0. */
  lemma ElevationOnHyperplane(c: seq<real>)
    ensures Sum(Elevation(c)) == 0.0
  {
    var e := Elevation(c);
    SumCons(e);
    assert e[1..] == e[1..][0..];
    if |c| > 0 {
      ElevationSuffix(c, 1);
      assert c[0..] == c;
    } else {
      assert e[1..] == [];
    }
  }

  /* ---------------- rounding ---------------- */

  /** Round to nearest, ties to even (the default SSE rounding mode). */
  function RoundHalfEven(x: real): (r: int)
    ensures -0.5 <= x - r as real <= 0.5
    ensures (x - r as real == 0.5 || x - r as real == -0.5) ==> r % 2 == 0
  {
    var fl := x.Floor;
    var fr := x - fl as real;
    if fr < 0.5 then fl
    else if fr > 0.5 then fl + 1
    else if fl % 2 == 0 then fl
    else fl + 1
  }

  /** The multiples of 1/(d+1) of the elevated coordinates, rounded. */
  function Rounded(e: seq<real>, d: nat): (v: seq<int>)
    ensures |v| == |e|
  {
    seq(|e|, i requires 0 <= i < |e| => RoundHalfEven(e[i] / (d + 1) as real))
  }

  /** The closest remainder-0 point: each rounded coordinate times d+1. */
  function Remainder0(e: seq<real>, d: nat): (rem0: seq<int>)
    ensures |rem0| == |e|
  {
    var v := Rounded(e, d);
    seq(|e|, i requires 0 <= i < |e| => v[i] * (d + 1))
  }

  /** Rounds each elevated coordinate to a multiple of d+1, accumulating the
      sum of the rounded quotients. */
  method RoundToLattice(elevated: seq<real>, d: nat) returns (rem0: seq<int>, sum: int)
    ensures rem0 == Remainder0(elevated, d) && sum == IntSum(Rounded(elevated, d))
    ensures forall i :: 0 <= i < |rem0| ==> rem0[i] % (d + 1) == 0
    ensures forall i :: 0 <= i < |rem0| ==>
              -((d + 1) as real) / 2.0 <= elevated[i] - rem0[i] as real <= ((d + 1) as real) / 2.0
  {
    var n := |elevated|;
    ghost var vs := Rounded(elevated, d);
    var r := new int[n];
    sum := 0;
    for i := 0 to n
      invariant sum == IntSum(vs[..i])
      invariant forall t :: 0 <= t < i ==> r[t] == vs[t] * (d + 1)
    {
      var v := RoundHalfEven(elevated[i] / (d + 1) as real);
      r[i] := v * (d + 1);
      assert vs[..i + 1][..i] == vs[..i];
      sum := sum + v;
    }
    assert vs[..n] == vs;
    rem0 := r[..];
    assert rem0 == Remainder0(elevated, d);
    forall i | 0 <= i < n
      ensures rem0[i] % (d + 1) == 0
      ensures -((d + 1) as real) / 2.0 <= elevated[i] - rem0[i] as real <= ((d + 1) as real) / 2.0
    {
      DivModUnique(vs[i] * (d + 1), d + 1, vs[i], 0);
      RoundingScales(elevated[i], d);
    }
  }

  lemma RoundingScales(x: real, d: nat)
    ensures var q := RoundHalfEven(x / (d + 1) as real);
            -((d + 1) as real) / 2.0 <= x - (q * (d + 1)) as real <= ((d + 1) as real) / 2.0
  {
    var m := d + 1;
    NearestMultiple(x, m, RoundHalfEven(x / m as real));
  }

  /** A quotient within a half of x / m gives a multiple of m within m / 2 of x. */
  lemma NearestMultiple(x: real, m: int, q: int)
    requires m > 0 && -0.5 <= x / m as real - q as real <= 0.5
    ensures -(m as real) / 2.0 <= x - (q * m) as real <= (m as real) / 2.0
  {
    var n := m as real;
    var y := x / n;
    var a := y - q as real;
    var nq := n * q as real;
    assert x == n * y by { DivTimes(x, n); }
    assert (q * m) as real == nq by { CastProduct(q, m); }
    assert n * a == n * y - nq by { Distribute(n, y, q as real); }
    HalfScaled(n, a);
    Within(x, (q * m) as real, n * y, nq, n * a, n);
  }

  lemma Within(x: real, mq: real, ny: real, nq: real, na: real, n: real)
    requires x == ny && mq == nq && na == ny - nq && -n / 2.0 <= na <= n / 2.0
    ensures -n / 2.0 <= x - mq <= n / 2.0
  {
  }

  lemma DivTimes(x: real, n: real)
    requires n > 0.0
    ensures x == n * (x / n)
  {
  }

  lemma CastProduct(q: int, m: int)
    ensures (q * m) as real == (q as real) * (m as real)
  {
  }

  lemma Distribute(n: real, y: real, z: real)
    ensures n * (y - z) == n * y - n * z
  {
  }

  lemma HalfScaled(n: real, a: real)
    requires n > 0.0 && -0.5 <= a <= 0.5
    ensures -n / 2.0 <= n * a <= n / 2.0
  {
  }

  lemma {:induction false} IntSumScale(v: seq<int>, m: int)
    ensures IntSum(seq(|v|, i requires 0 <= i < |v| => v[i] * m)) == IntSum(v) * m
  {
    if |v| > 0 {
      var w := seq(|v|, i requires 0 <= i < |v| => v[i] * m);
      var v' := v[..|v| - 1];
      assert w[..|w| - 1] == seq(|v'|, i requires 0 <= i < |v'| => v'[i] * m);
      IntSumScale(v', m);
    }
  }

  /** The residuals of a point against a lattice point. */
  function Residual(e: seq<real>, rem0: seq<int>): (r: seq<real>)
    requires |e| == |rem0|
    ensures |r| == |e|
  {
    seq(|e|, i requires 0 <= i < |e| => e[i] - rem0[i] as real)
  }

  lemma {:induction false} ResidualSum(e: seq<real>, rem0: seq<int>)
    requires |e| == |rem0|
    ensures Sum(Residual(e, rem0)) == Sum(e) - IntSum(rem0) as real
  {
    if |e| > 0 {
      var n := |e| - 1;
      assert Residual(e, rem0)[..n] == Residual(e[..n], rem0[..n]);
      ResidualSum(e[..n], rem0[..n]);
    }
  }

  lemma {:induction false} SumBounded(s: seq<real>, b: real)
    requires forall i :: 0 <= i < |s| ==> -b <= s[i] <= b
    ensures -(|s| as real) * b <= Sum(s) <= (|s| as real) * b
  {
    if |s| > 0 {
      SumBounded(s[..|s| - 1], b);
    }
  }

  /** When the elevated point lies on the hyperplane, the rounded quotients
      sum to at most (d+1)/2 in absolute value: the rounded point is off the
      hyperplane by less than one lattice step. */
  lemma RoundedSumBound(e: seq<real>, d: nat)
    requires |e| == d + 1 && Sum(e) == 0.0
    ensures -(d + 1) <= 2 * IntSum(Rounded(e, d)) <= d + 1
  {
    var rem0 := Remainder0(e, d);
    var sum := IntSum(Rounded(e, d));
    var total := IntSum(rem0);
    var n := (d + 1) as real;
    IntSumScale(Rounded(e, d), d + 1);
    assert total == sum * (d + 1);
    ResidualSum(e, rem0);
    forall i | 0 <= i < d + 1
      ensures -(n / 2.0) <= Residual(e, rem0)[i] <= n / 2.0
    {
      RoundingScales(e[i], d);
    }
    var res := Residual(e, rem0);
    ResidualTotal(res, n, total);
    BoundFromReal(total, sum, d + 1, n);
  }

  lemma ResidualTotal(res: seq<real>, n: real, total: int)
    requires |res| as real == n && Sum(res) == -(total as real)
    requires forall i :: 0 <= i < |res| ==> -(n / 2.0) <= res[i] <= n / 2.0
    ensures -(n * (n / 2.0)) <= -(total as real) <= n * (n / 2.0)
  {
    SumBounded(res, n / 2.0);
  }

  lemma BoundFromReal(total: int, sum: int, m: int, mr: real)
    requires m > 0 && total == sum * m && mr == m as real
    requires -(mr * (mr / 2.0)) <= -(total as real) <= mr * (mr / 2.0)
    ensures -m <= 2 * sum <= m
  {
    var sq := m * m;
    SquareAsReal(m);
    assert 2 * total <= sq;
    assert -sq <= 2 * total;
    assert 2 * total == (2 * sum) * m;
    CancelPositive(2 * sum, m, m);
    CancelPositive(-m, 2 * sum, m);
  }

  lemma SquareAsReal(m: int)
    ensures (m * m) as real == (m as real) * (m as real)
  {
  }

  lemma CancelPositive(a: int, b: int, m: int)
    requires m > 0 && a * m <= b * m
    ensures a <= b
  {
    if a > b {
      assert (a - b) * m == a * m - b * m;
      MulAtLeast(a - b, m);
    }
  }

  /* ---------------- ranks ---------------- */

  /** Coordinate `y` comes before `x` when its residual is larger, ties going
      to the lower index. */
  predicate Precedes(diff: seq<real>, y: int, x: int)
    requires 0 <= y < |diff| && 0 <= x < |diff|
  {
    diff[y] > diff[x] || (diff[y] == diff[x] && y < x)
  }

  /** The rank of coordinate `x`: the number of coordinates before it. */
  function RankOf(diff: seq<real>, x: int): nat
    requires 0 <= x < |diff|
  {
    CountIf(|diff|, y => 0 <= y < |diff| && Precedes(diff, y, x))
  }

  function Ranks(diff: seq<real>): (rank: seq<int>)
    ensures |rank| == |diff|
  {
    seq(|diff|, x requires 0 <= x < |diff| => RankOf(diff, x))
  }

  /** Pair (a, b), a < b, has been compared once the outer loop is past `a`,
      or at `a` with the inner loop past `b`. */
  predicate Compared(i: int, j: int, a: int, b: int)
  {
    a < i || (a == i && b < j)
  }

  /** The coordinates already compared with `x` that came out before it. */
  ghost function Seen(diff: seq<real>, x: int, i: int, j: int): int -> bool
    requires 0 <= x < |diff|
  {
    y => 0 <= y < |diff| && y != x
         && (if x < y then Compared(i, j, x, y) else Compared(i, j, y, x))
         && Precedes(diff, y, x)
  }

  /** Comparing pair (i, j) adds exactly one coordinate to what `i` or `j`
      has seen, and nothing to the others. */
  lemma RankStep(diff: seq<real>, i: int, j: int, x: int)
    requires 0 <= i < j < |diff| && 0 <= x < |diff|
    ensures CountIf(|diff|, Seen(diff, x, i, j + 1)) ==
            CountIf(|diff|, Seen(diff, x, i, j))
            + (if x == i && diff[i] < diff[j] then 1 else if x == j && !(diff[i] < diff[j]) then 1 else 0)
  {
    var n := |diff|;
    var p, q := Seen(diff, x, i, j), Seen(diff, x, i, j + 1);
    if x == i && diff[i] < diff[j] {
      CountIfOneMore(n, p, q, j);
    } else if x == j && !(diff[i] < diff[j]) {
      CountIfOneMore(n, p, q, i);
    } else {
      CountIfSame(n, p, q);
    }
  }

  /** Computes the ranks with the source's pairwise comparisons: for each
      pair i < j, the rank of `i` goes up when its residual is smaller,
      otherwise the rank of `j` does. */
  method ComputeRanks(diff: seq<real>) returns (rank: seq<int>)
    requires |diff| > 0
    ensures rank == Ranks(diff)
  {
    var n := |diff|;
    var r := new int[n](_ => 0);
    forall x | 0 <= x < n
      ensures CountIf(n, Seen(diff, x, 0, 1)) == 0
    {
      CountIfNone(n, Seen(diff, x, 0, 1));
    }
    for i := 0 to n - 1
      invariant forall x :: 0 <= x < n ==> r[x] == CountIf(n, Seen(diff, x, i, i + 1))
    {
      CompareWithLater(r, diff, i);
    }
    forall x | 0 <= x < n
      ensures r[x] == RankOf(diff, x)
    {
      CountIfSame(n, Seen(diff, x, n - 1, n), y => 0 <= y < n && Precedes(diff, y, x));
    }
    rank := r[..];
  }

  /** The inner loop of ComputeRanks: compares coordinate `i` with every
      later one. */
  method CompareWithLater(r: array<int>, diff: seq<real>, i: int)
    requires r.Length == |diff| && 0 <= i < |diff| - 1
    requires forall x :: 0 <= x < |diff| ==> r[x] == CountIf(|diff|, Seen(diff, x, i, i + 1))
    modifies r
    ensures forall x :: 0 <= x < |diff| ==> r[x] == CountIf(|diff|, Seen(diff, x, i + 1, i + 2))
  {
    var n := |diff|;
    for j := i + 1 to n
      invariant forall x :: 0 <= x < n ==> r[x] == CountIf(n, Seen(diff, x, i, j))
    {
      forall x | 0 <= x < n {
        RankStep(diff, i, j, x);
      }
      if diff[i] < diff[j] {
        r[i] := r[i] + 1;
      } else {
        r[j] := r[j] + 1;
      }
    }
    forall x | 0 <= x < n
      ensures CountIf(n, Seen(diff, x, i + 1, i + 2)) == CountIf(n, Seen(diff, x, i, n))
    {
      CountIfSame(n, Seen(diff, x, i, n), Seen(diff, x, i + 1, i + 2));
    }
  }

  /** The ranks are a permutation of 0..n-1. */
  lemma RanksArePermutation(diff: seq<real>)
    ensures forall x :: 0 <= x < |diff| ==> 0 <= Ranks(diff)[x] < |diff|
    ensures forall x, y :: 0 <= x < y < |diff| ==> Ranks(diff)[x] != Ranks(diff)[y]
  {
    var n := |diff|;
    forall x | 0 <= x < n
      ensures Ranks(diff)[x] < n
    {
      CountIfMissing(n, y => 0 <= y < n && Precedes(diff, y, x), x);
    }
    forall x, y | 0 <= x < y < n
      ensures Ranks(diff)[x] != Ranks(diff)[y]
    {
      var px := z => 0 <= z < n && Precedes(diff, z, x);
      var py := z => 0 <= z < n && Precedes(diff, z, y);
      if Precedes(diff, x, y) {
        CountIfStrict(n, px, py, x);
      } else {
        CountIfStrict(n, py, px, y);
      }
    }
  }

  /* ---------------- correction back onto the hyperplane ---------------- */

  /** The rank shifted by the rounded sum, brought back into 0..d by adding
      or subtracting d+1 once. */
  function Correct(rank: int, sum: int, d: nat): int
  {
    var s := rank + sum;
    if s < 0 then s + (d + 1) else if s >= d + 1 then s - (d + 1) else s
  }

  /** Shifts every rank by `sum`, moving it and the matching coordinate of
      `rem0` by d+1 when the rank leaves 0..d. */
  function CorrectedRanks(rank: seq<int>, sum: int, d: nat): (r: seq<int>)
    ensures |r| == |rank|
  {
    seq(|rank|, i requires 0 <= i < |rank| => Correct(rank[i], sum, d))
  }

  /** The remainder-0 point moved along with the corrected ranks: each
      coordinate moves by as much as its rank did beyond the shift by `sum`. */
  function CorrectedRem0(rem0: seq<int>, rank: seq<int>, sum: int, d: nat): (r: seq<int>)
    requires |rank| == |rem0|
    ensures |r| == |rem0|
  {
    seq(|rem0|, i requires 0 <= i < |rem0| => rem0[i] + (Correct(rank[i], sum, d) - (rank[i] + sum)))
  }

  method CorrectRanks(rank: seq<int>, rem0: seq<int>, sum: int, d: nat) returns (rank': seq<int>, rem0': seq<int>)
    requires |rank| == |rem0|
    ensures rank' == CorrectedRanks(rank, sum, d) && rem0' == CorrectedRem0(rem0, rank, sum, d)
  {
    var n := |rank|;
    var rk := new int[n](i requires 0 <= i < n => rank[i]);
    var rm := new int[n](i requires 0 <= i < n => rem0[i]);
    ghost var goalRank := CorrectedRanks(rank, sum, d);
    ghost var goalRem0 := CorrectedRem0(rem0, rank, sum, d);
    for i := 0 to n
      invariant forall t :: 0 <= t < n ==> rk[t] == if t < i then goalRank[t] else rank[t]
      invariant forall t :: 0 <= t < n ==> rm[t] == if t < i then goalRem0[t] else rem0[t]
    {
      rk[i] := rk[i] + sum;
      if rk[i] < 0 {
        rk[i] := rk[i] + (d + 1);
        rm[i] := rm[i] + (d + 1);
      } else if rk[i] >= d + 1 {
        rk[i] := rk[i] - (d + 1);
        rm[i] := rm[i] - (d + 1);
      }
    }
    rank', rem0' := rk[..], rm[..];
  }

  /** A shifted rank within one period either side lands in 0..d, equal to
      the shifted rank modulo d+1, having moved by a multiple of d+1. */
  lemma CorrectInRange(rank: int, sum: int, d: nat)
    requires -(d + 1) <= rank + sum < 2 * (d + 1)
    ensures 0 <= Correct(rank, sum, d) <= d
    ensures Correct(rank, sum, d) == (rank + sum) % (d + 1)
    ensures (Correct(rank, sum, d) - (rank + sum)) % (d + 1) == 0
  {
    var s := rank + sum;
    var n := d + 1;
    if s < 0 {
      DivModUnique(s, n, -1, s + n);
      DivModUnique(n, n, 1, 0);
    } else if s >= n {
      DivModUnique(s, n, 1, s - n);
      DivModUnique(-n, n, -1, 0);
    } else {
      DivModUnique(s, n, 0, s);
      DivModUnique(0, n, 0, 0);
    }
  }

  /** Correcting a permutation of 0..d by a sum of at most d+1 in absolute
      value gives a permutation of 0..d again. */
  lemma CorrectedPermutation(rank: seq<int>, sum: int, d: nat)
    requires |rank| == d + 1 && -(d + 1) <= sum <= d + 1
    requires forall i :: 0 <= i <= d ==> 0 <= rank[i] <= d
    requires forall i, j :: 0 <= i < j <= d ==> rank[i] != rank[j]
    ensures forall i :: 0 <= i <= d ==> 0 <= Correct(rank[i], sum, d) <= d
    ensures forall i, j :: 0 <= i < j <= d ==> Correct(rank[i], sum, d) != Correct(rank[j], sum, d)
  {
    forall i | 0 <= i <= d
      ensures 0 <= Correct(rank[i], sum, d) <= d
    {
      CorrectInRange(rank[i], sum, d);
    }
  }

  /** Correcting moves each coordinate of the remainder-0 point by the same
      multiple of d+1 as its rank beyond rank + sum. Since the ranks before
      and after are both permutations of 0..d, these moves add up to
      -(d+1) * sum, which brings a point whose coordinates total
      (d+1) * sum back onto the hyperplane. */
  lemma CorrectedSumsToZero(rem0: seq<int>, rank: seq<int>, sum: int, d: nat)
    requires |rem0| == |rank| == d + 1 && -(d + 1) <= sum <= d + 1
    requires forall i :: 0 <= i <= d ==> 0 <= rank[i] <= d
    requires forall i, j :: 0 <= i < j <= d ==> rank[i] != rank[j]
    requires IntSum(rem0) == (d + 1) * sum
    ensures IntSum(CorrectedRem0(rem0, rank, sum, d)) == 0
  {
    var moves := seq(d + 1, i requires 0 <= i <= d => Correct(rank[i], sum, d) - (rank[i] + sum));
    var rank' := CorrectedRanks(rank, sum, d);
    CorrectedRanksSum(rank, sum, d);
    IntSumPointwise(rank, moves, rank', sum);
    IntSumPointwise(rem0, moves, CorrectedRem0(rem0, rank, sum, d), 0);
    assert |rank'| * sum == (d + 1) * sum;
    CorrectionAlgebra(IntSum(rank), IntSum(rank'), IntSum(moves), IntSum(rem0),
                      IntSum(CorrectedRem0(rem0, rank, sum, d)), (d + 1) * sum);
  }

  /** The corrected ranks are again a permutation of 0..d, so they keep
      the sum of the ranks. */
  lemma CorrectedRanksSum(rank: seq<int>, sum: int, d: nat)
    requires |rank| == d + 1 && -(d + 1) <= sum <= d + 1
    requires forall i :: 0 <= i <= d ==> 0 <= rank[i] <= d
    requires forall i, j :: 0 <= i < j <= d ==> rank[i] != rank[j]
    ensures IntSum(CorrectedRanks(rank, sum, d)) == IntSum(rank)
  {
    var rank' := CorrectedRanks(rank, sum, d);
    CorrectedPermutation(rank, sum, d);
    PermutationSum(rank);
    PermutationSum(rank');
  }

  /** The moves cancel the shift of the ranks, and the shift matches the
      excess of the remainder-0 point. */
  lemma CorrectionAlgebra(ranks: int, ranks': int, moves: int, total: int, total': int, shift: int)
    requires ranks == ranks' && ranks' == ranks + moves + shift
    requires total' == total + moves && total == shift
    ensures total' == 0
  {
  }

  /** For an elevated point on the hyperplane, the corrected remainder-0
      point is on the hyperplane too: its coordinates sum to zero. */
  lemma CorrectedOnHyperplane(e: seq<real>, d: nat)
    requires |e| == d + 1 && Sum(e) == 0.0
    ensures IntSum(CorrectedRem0(Remainder0(e, d), Ranks(Residual(e, Remainder0(e, d))), IntSum(Rounded(e, d)), d)) == 0
  {
    var rem0 := Remainder0(e, d);
    RoundedSumBound(e, d);
    RanksArePermutation(Residual(e, rem0));
    Remainder0Sum(e, d);
    CorrectedSumsToZero(rem0, Ranks(Residual(e, rem0)), IntSum(Rounded(e, d)), d);
  }

  /** The remainder-0 point totals d+1 times the rounded quotients. */
  lemma Remainder0Sum(e: seq<real>, d: nat)
    ensures IntSum(Remainder0(e, d)) == (d + 1) * IntSum(Rounded(e, d))
  {
    IntSumScale(Rounded(e, d), d + 1);
    assert Remainder0(e, d) == seq(|e|, i requires 0 <= i < |e| => Rounded(e, d)[i] * (d + 1));
  }

  /* ---------------- barycentric weights ---------------- */

  /** Every rank names a vertex of the simplex: 0..d. */
  predicate RanksWithin(rank: seq<int>, d: nat)
  {
    forall i :: 0 <= i < |rank| ==> 0 <= rank[i] <= d
  }

  /** The residuals times the down factor 1/(d+1): what each coordinate
      moves between two accumulators. */
  function Shares(diff: seq<real>, d: nat): (v: seq<real>)
    ensures |v| == |diff|
  {
    var down := 1.0 / (d + 1) as real;
    seq(|diff|, i requires 0 <= i < |diff| => diff[i] * down)
  }

  /** The d+2 accumulators after the first `n` coordinates: coordinate i adds
      its share at position d - rank[i] and subtracts it at the next
      position. */
  function BaryAcc(share: seq<real>, rank: seq<int>, d: nat, n: nat): (b: seq<real>)
    requires n <= |share| == |rank|
    requires RanksWithin(rank, d)
    ensures |b| == d + 2
  {
    if n == 0 then seq(d + 2, _ => 0.0)
    else
      var b := BaryAcc(share, rank, d, n - 1);
      var v := share[n - 1];
      var p := d - rank[n - 1];
      b[p := b[p] + v][p + 1 := b[p + 1] - v]
  }

  /** The weights of the d+1 vertices: the accumulators with the last one
      wrapped around into the first, plus one. */
  function Barycentric(diff: seq<real>, rank: seq<int>, d: nat): (w: seq<real>)
    requires |diff| == |rank| == d + 1
    requires RanksWithin(rank, d)
    ensures |w| == d + 1
  {
    var b := BaryAcc(Shares(diff, d), rank, d, d + 1);
    b[0 := b[0] + 1.0 + b[d + 1]][..d + 1]
  }

  lemma {:induction false} BaryAccSumsToZero(share: seq<real>, rank: seq<int>, d: nat, n: nat)
    requires n <= |share| == |rank|
    requires RanksWithin(rank, d)
    ensures Sum(BaryAcc(share, rank, d, n)) == 0.0
  {
    if n == 0 {
      ZeroSum(d + 2);
    } else {
      var b, p, v := BaryAcc(share, rank, d, n - 1), d - rank[n - 1], share[n - 1];
      assert BaryAcc(share, rank, d, n) == b[p := b[p] + v][p + 1 := b[p + 1] - v];
      BaryAccSumsToZero(share, rank, d, n - 1);
      TransferKeepsSum(b, p, v);
    }
  }

  /** Moving an amount from one accumulator to the next keeps the total. */
  lemma TransferKeepsSum(b: seq<real>, p: int, v: real)
    requires 0 <= p < |b| - 1
    ensures Sum(b[p := b[p] + v][p + 1 := b[p + 1] - v]) == Sum(b)
  {
    SumUpdate(b, p, b[p] + v);
    SumUpdate(b[p := b[p] + v], p + 1, b[p + 1] - v);
  }

  lemma {:induction false} ZeroSum(n: nat)
    ensures Sum(seq(n, _ => 0.0)) == 0.0
  {
    if n > 0 {
      assert seq(n, _ => 0.0)[..n - 1] == seq(n - 1, _ => 0.0);
      ZeroSum(n - 1);
    }
  }

  /** The barycentric weights sum to exactly 1. */
  lemma WeightsSumToOne(diff: seq<real>, rank: seq<int>, d: nat)
    requires |diff| == |rank| == d + 1
    requires RanksWithin(rank, d)
    ensures Sum(Barycentric(diff, rank, d)) == 1.0
  {
    var b := BaryAcc(Shares(diff, d), rank, d, d + 1);
    var b' := b[0 := b[0] + 1.0 + b[d + 1]];
    BaryAccSumsToZero(Shares(diff, d), rank, d, d + 1);
    SumUpdate(b, 0, b[0] + 1.0 + b[d + 1]);
    assert b'[..|b'| - 1] == b'[..d + 1];
  }

  /* ---------------- the weights reproduce the point ---------------- */

  /** Each entry of `w` times the matching entry of `c`. */
  function Weighted(w: seq<real>, c: seq<real>): (wc: seq<real>)
    requires |w| <= |c|
    ensures |wc| == |w|
  {
    seq(|w|, r requires 0 <= r < |w| => w[r] * c[r])
  }

  /** Coordinate i of the vertices 0..d+1 of the simplex of `rank` around
      `rem0`; vertex d+1 has the offsets of vertex 0. */
  function VertexColumn(rem0: seq<int>, rank: seq<int>, d: nat, i: int): (c: seq<real>)
    requires 0 <= i < |rem0| && i < |rank|
    ensures |c| == d + 2
    ensures 0 <= rank[i] <= d ==> c[0] == c[d + 1] == rem0[i] as real
  {
    seq(d + 2, r => (rem0[i] + Canonical(d, r, rank[i])) as real)
  }

  /** What the first n coordinates' shares add to a weighted column `c` of
      the accumulators: each share times the step in `c` between the two
      accumulators it moves weight between. */
  function ShareMoves(share: seq<real>, rank: seq<int>, d: nat, c: seq<real>, n: nat): (moves: seq<real>)
    requires n <= |share| == |rank| && RanksWithin(rank, d) && |c| == d + 2
    ensures |moves| == n
  {
    seq(n, j requires 0 <= j < n => share[j] * (c[d - rank[j]] - c[d - rank[j] + 1]))
  }

  /** Changing one entry changes the weighted sum by that entry alone. */
  lemma WeightedUpdate(b: seq<real>, c: seq<real>, p: int, x: real)
    requires |b| <= |c| && 0 <= p < |b|
    ensures Sum(Weighted(b[p := x], c)) == Sum(Weighted(b, c)) - b[p] * c[p] + x * c[p]
  {
    var W, W' := Weighted(b, c), Weighted(b[p := x], c);
    assert |W'| == |W|;
    forall r | 0 <= r < |W|
      ensures W'[r] == W[p := x * c[p]][r]
    {
      if r == p {
        assert W'[r] == x * c[p];
      } else {
        assert W'[r] == b[r] * c[r];
      }
    }
    assert W' == W[p := x * c[p]];
    SumUpdate(W, p, x * c[p]);
  }

  /** The accumulators after n coordinates, weighted by a column `c`, sum to
      the moves of those n shares. */
  lemma {:induction false} BaryAccWeighted(share: seq<real>, rank: seq<int>, d: nat, c: seq<real>, n: nat)
    requires n <= |share| == |rank| && RanksWithin(rank, d) && |c| == d + 2
    ensures Sum(Weighted(BaryAcc(share, rank, d, n), c)) == Sum(ShareMoves(share, rank, d, c, n))
  {
    if n == 0 {
      assert Weighted(BaryAcc(share, rank, d, 0), c) == seq(d + 2, _ => 0.0);
      ZeroSum(d + 2);
    } else {
      var b, p, v := BaryAcc(share, rank, d, n - 1), d - rank[n - 1], share[n - 1];
      BaryAccWeighted(share, rank, d, c, n - 1);
      MoveWeighted(b, share, rank, d, c, n);
    }
  }

  /** One more coordinate's share moved between two accumulators adds its
      move to the weighted sum. */
  lemma MoveWeighted(b: seq<real>, share: seq<real>, rank: seq<int>, d: nat, c: seq<real>, n: nat)
    requires 0 < n <= |share| == |rank| && RanksWithin(rank, d) && |c| == |b| == d + 2
    requires Sum(Weighted(b, c)) == Sum(ShareMoves(share, rank, d, c, n - 1))
    ensures var p, v := d - rank[n - 1], share[n - 1];
            Sum(Weighted(b[p := b[p] + v][p + 1 := b[p + 1] - v], c)) == Sum(ShareMoves(share, rank, d, c, n))
  {
    var p, v := d - rank[n - 1], share[n - 1];
    TransferWeighted(b, c, p, v);
    var moves := ShareMoves(share, rank, d, c, n);
    assert moves[..n - 1] == ShareMoves(share, rank, d, c, n - 1);
    SumLast(moves, n);
    StepAlgebra(Sum(Weighted(b[p := b[p] + v][p + 1 := b[p + 1] - v], c)), Sum(Weighted(b, c)), Sum(moves),
                Sum(moves[..n - 1]), moves[n - 1], v * (c[p] - c[p + 1]));
  }

  lemma StepAlgebra(sn: real, s0: real, sm: real, prefix: real, last: real, step: real)
    requires sn == s0 + step && s0 == prefix && sm == prefix + last && last == step
    ensures sn == sm
  {
  }

  /** Moving v from accumulator p + 1 to accumulator p changes the weighted
      sum by v times the difference of their columns. */
  lemma TransferWeighted(b: seq<real>, c: seq<real>, p: int, v: real)
    requires |b| <= |c| && 0 <= p < |b| - 1
    ensures Sum(Weighted(b[p := b[p] + v][p + 1 := b[p + 1] - v], c)) == Sum(Weighted(b, c)) + v * (c[p] - c[p + 1])
  {
    var b1 := b[p := b[p] + v];
    var b2 := b1[p + 1 := b[p + 1] - v];
    WeightedUpdate(b, c, p, b[p] + v);
    WeightedUpdate(b1, c, p + 1, b[p + 1] - v);
    assert b1[p + 1] == b[p + 1];
    MoveAlgebra(Sum(Weighted(b, c)), Sum(Weighted(b1, c)), Sum(Weighted(b2, c)), b[p], b[p + 1], v, c[p], c[p + 1]);
  }

  /** Moving v from accumulator q to accumulator p changes the weighted sum
      by v times the difference of their columns. */
  lemma MoveAlgebra(s0: real, s1: real, s2: real, bp: real, bq: real, v: real, cp: real, cq: real)
    requires s1 == s0 - bp * cp + (bp + v) * cp
    requires s2 == s1 - bq * cq + (bq - v) * cq
    ensures s2 == s0 + v * (cp - cq)
  {
  }

  /** Between the two vertices a coordinate's share moves weight between,
      coordinate i steps by d when it is that same coordinate and by -1
      otherwise. */
  lemma CanonicalStep(rank: seq<int>, d: nat, i: int, j: int)
    requires |rank| == d + 1 && 0 <= i <= d && 0 <= j <= d
    requires forall x :: 0 <= x <= d ==> 0 <= rank[x] <= d
    requires forall x, y :: 0 <= x < y <= d ==> rank[x] != rank[y]
    ensures Canonical(d, d - rank[j], rank[i]) - Canonical(d, d - rank[j] + 1, rank[i]) == if i == j then d else -1
  {
    assert i != j ==> rank[i] != rank[j];
  }

  /** Each share moves coordinate i down by itself, except coordinate i's
      own share, which moves it up by d times itself. */
  lemma MovesOfShares(share: seq<real>, rem0: seq<int>, rank: seq<int>, d: nat, i: int)
    requires |share| == |rem0| == |rank| == d + 1 && 0 <= i <= d
    requires forall x :: 0 <= x <= d ==> 0 <= rank[x] <= d
    requires forall x, y :: 0 <= x < y <= d ==> rank[x] != rank[y]
    ensures ShareMoves(share, rank, d, VertexColumn(rem0, rank, d, i), d + 1)
            == seq(d + 1, j requires 0 <= j <= d => share[j] * -1.0)[i := share[i] * d as real]
  {
    var c := VertexColumn(rem0, rank, d, i);
    var moves := ShareMoves(share, rank, d, c, d + 1);
    var neg := seq(d + 1, j requires 0 <= j <= d => share[j] * -1.0);
    forall j | 0 <= j <= d
      ensures moves[j] == neg[i := share[i] * d as real][j]
    {
      MoveOfShare(share, rem0, rank, d, i, j);
    }
  }

  /** Coordinate j's share moves coordinate i of the vertices by d times
      the share when j is i, and by minus the share otherwise. */
  lemma MoveOfShare(share: seq<real>, rem0: seq<int>, rank: seq<int>, d: nat, i: int, j: int)
    requires |share| == |rem0| == |rank| == d + 1 && 0 <= i <= d && 0 <= j <= d
    requires forall x :: 0 <= x <= d ==> 0 <= rank[x] <= d
    requires forall x, y :: 0 <= x < y <= d ==> rank[x] != rank[y]
    ensures ShareMoves(share, rank, d, VertexColumn(rem0, rank, d, i), d + 1)[j]
            == if i == j then share[i] * d as real else share[j] * -1.0
  {
    var c := VertexColumn(rem0, rank, d, i);
    CanonicalStep(rank, d, i, j);
    var p := d - rank[j];
    assert c[p] - c[p + 1] == (Canonical(d, p, rank[i]) - Canonical(d, p + 1, rank[i])) as real;
  }

  /** When the shares sum to zero, all d+1 of them together move coordinate
      i by d+1 times its own share. */
  lemma MovesTotal(share: seq<real>, rem0: seq<int>, rank: seq<int>, d: nat, i: int)
    requires |share| == |rem0| == |rank| == d + 1 && 0 <= i <= d && Sum(share) == 0.0
    requires forall x :: 0 <= x <= d ==> 0 <= rank[x] <= d
    requires forall x, y :: 0 <= x < y <= d ==> rank[x] != rank[y]
    ensures Sum(ShareMoves(share, rank, d, VertexColumn(rem0, rank, d, i), d + 1)) == share[i] + share[i] * d as real
  {
    var neg := seq(d + 1, j requires 0 <= j <= d => share[j] * -1.0);
    var top := share[i] * d as real;
    MovesOfShares(share, rem0, rank, d, i);
    SumUpdate(neg, i, top);
    SumScaled(share, neg, -1.0);
    TotalMoves(Sum(neg[i := top]), Sum(neg), neg[i], top, share[i], Sum(share));
  }

  lemma TotalMoves(sm: real, sneg: real, negi: real, top: real, si: real, ss: real)
    requires sm == sneg - negi + top && sneg == ss * -1.0 && ss == 0.0 && negi == si * -1.0
    ensures sm == si + top
  {
  }

  /** The shares of a point and a remainder-0 point, both on the hyperplane,
      sum to zero. */
  lemma SharesSumToZero(e: seq<real>, rem0: seq<int>, d: nat)
    requires |e| == |rem0| && Sum(e) == 0.0 && IntSum(rem0) == 0
    ensures Sum(Shares(Residual(e, rem0), d)) == 0.0
  {
    ResidualSum(e, rem0);
    SharesSum(Residual(e, rem0), d);
  }

  /** A share plus d times itself is the residual it was taken from. */
  lemma ShareWithItsMoves(diff: seq<real>, d: nat, i: int)
    requires 0 <= i < |diff|
    ensures Shares(diff, d)[i] + Shares(diff, d)[i] * d as real == diff[i]
  {
    assert Shares(diff, d)[i] == diff[i] * (1.0 / (d + 1) as real);
    ShareTimesCount(diff[i], d);
  }

  /** The shares sum to the residuals' sum over d+1. */
  lemma SharesSum(diff: seq<real>, d: nat)
    ensures Sum(Shares(diff, d)) == Sum(diff) * (1.0 / (d + 1) as real)
  {
    SumScaled(diff, Shares(diff, d), 1.0 / (d + 1) as real);
  }

  lemma ShareTimesCount(x: real, d: nat)
    ensures x * (1.0 / (d + 1) as real) * d as real + x * (1.0 / (d + 1) as real) == x
  {
    var n := (d + 1) as real;
    assert d as real + 1.0 == n;
    assert x * (1.0 / n) * d as real + x * (1.0 / n) == x * (1.0 / n) * n;
  }

  lemma WrapAlgebra(total: real, front: real, s: real, b0: real, bl: real, c0: real)
    requires total == s - b0 * c0 + (b0 + 1.0 + bl) * c0
    requires total == front + bl * c0
    ensures front == s + c0
  {
  }

  /** Weighting coordinate i of the vertices by the weights that the
      accumulators of shares summing to zero give moves the remainder-0
      coordinate by d+1 times coordinate i's own share. */
  lemma AccumulatorsReproduce(share: seq<real>, rem0: seq<int>, rank: seq<int>, d: nat, i: int, x: real)
    requires |share| == |rem0| == |rank| == d + 1 && 0 <= i <= d && Sum(share) == 0.0
    requires forall y :: 0 <= y <= d ==> 0 <= rank[y] <= d
    requires forall y, z :: 0 <= y < z <= d ==> rank[y] != rank[z]
    requires share[i] + share[i] * d as real == x
    ensures var b := BaryAcc(share, rank, d, d + 1);
            Sum(Weighted(b[0 := b[0] + 1.0 + b[d + 1]][..d + 1], VertexColumn(rem0, rank, d, i))) == rem0[i] as real + x
  {
    var c := VertexColumn(rem0, rank, d, i);
    var b := BaryAcc(share, rank, d, d + 1);
    var w := b[0 := b[0] + 1.0 + b[d + 1]][..d + 1];
    BaryAccWeighted(share, rank, d, c, d + 1);
    MovesTotal(share, rem0, rank, d, i);
    WrapWeighted(b, c, d + 1, w);
    ReproduceAlgebra(Sum(Weighted(w, c)), Sum(Weighted(b, c)), Sum(ShareMoves(share, rank, d, c, d + 1)),
                     share[i] + share[i] * d as real, x, c[0], rem0[i] as real);
  }

  /** Coordinate i of the vertices, weighted by the barycentric weights of
      residuals `diff` whose shares sum to zero, is the remainder-0
      coordinate plus coordinate i's residual. */
  lemma SharesReproduce(diff: seq<real>, rem0: seq<int>, rank: seq<int>, d: nat, i: int)
    requires |diff| == |rem0| == |rank| == d + 1 && 0 <= i <= d && Sum(Shares(diff, d)) == 0.0
    requires forall y :: 0 <= y <= d ==> 0 <= rank[y] <= d
    requires forall y, z :: 0 <= y < z <= d ==> rank[y] != rank[z]
    ensures Sum(Weighted(Barycentric(diff, rank, d), VertexColumn(rem0, rank, d, i))) == rem0[i] as real + diff[i]
  {
    ShareWithItsMoves(diff, d, i);
    AccumulatorsReproduce(Shares(diff, d), rem0, rank, d, i, diff[i]);
  }

  /** Coordinate i of the vertices, weighted by the barycentric weights of a
      point e whose remainder-0 point `rem0` and ranks `rank` are on the
      hyperplane, gives back coordinate i of e. */
  lemma BarycentricReproduces(e: seq<real>, rem0: seq<int>, rank: seq<int>, d: nat, i: int)
    requires |e| == |rem0| == |rank| == d + 1 && 0 <= i <= d
    requires Sum(e) == 0.0 && IntSum(rem0) == 0
    requires forall x :: 0 <= x <= d ==> 0 <= rank[x] <= d
    requires forall x, y :: 0 <= x < y <= d ==> rank[x] != rank[y]
    ensures Sum(Weighted(Barycentric(Residual(e, rem0), rank, d), VertexColumn(rem0, rank, d, i))) == e[i]
  {
    SharesSumToZero(e, rem0, d);
    SharesReproduce(Residual(e, rem0), rem0, rank, d, i);
    assert Residual(e, rem0)[i] == e[i] - rem0[i] as real;
  }

  lemma ReproduceAlgebra(front: real, sw: real, sm: real, moved: real, x: real, c0: real, r0: real)
    requires front == sw + c0 && sw == sm && sm == moved && moved == x && c0 == r0
    ensures front == r0 + x
  {
  }

  /** Folding the last of l+1 accumulators into the first and adding one adds
      the first column entry to the weighted sum, when the column wraps
      around. */
  lemma WrapWeighted(b: seq<real>, c: seq<real>, l: nat, w: seq<real>)
    requires |b| == |c| == l + 1 && l >= 1 && c[0] == c[l]
    requires w == b[0 := b[0] + 1.0 + b[l]][..l]
    ensures Sum(Weighted(w, c)) == Sum(Weighted(b, c)) + c[0]
  {
    var b' := b[0 := b[0] + 1.0 + b[l]];
    WeightedUpdate(b, c, 0, b'[0]);
    var W' := Weighted(b', c);
    forall r | 0 <= r < l
      ensures W'[..l][r] == Weighted(b'[..l], c)[r]
    {
    }
    assert W'[..l] == Weighted(b'[..l], c);
    assert W'[l] == b[l] * c[0];
    WrapAlgebra(Sum(W'), Sum(W'[..l]), Sum(Weighted(b, c)), b[0], b[l], c[0]);
  }

  /** Computes the weights in a local array of d+2 accumulators. */
  method ComputeBarycentric(diff: seq<real>, rank: seq<int>, d: nat) returns (weights: seq<real>)
    requires |diff| == |rank| == d + 1
    requires RanksWithin(rank, d)
    ensures weights == Barycentric(diff, rank, d)
  {
    var b := new real[d + 2](_ => 0.0);
    var down := 1.0 / (d + 1) as real;
    assert b[..] == BaryAcc(Shares(diff, d), rank, d, 0);
    Accumulate(b, diff, rank, d, down);
    ghost var acc := b[..];
    b[0] := b[0] + 1.0 + b[d + 1];
    assert b[..] == acc[0 := acc[0] + 1.0 + acc[d + 1]];
    weights := b[..d + 1];
  }

  /** Runs the scaled residuals of all d+1 coordinates into the zeroed
      accumulators. */
  method Accumulate(b: array<real>, diff: seq<real>, rank: seq<int>, d: nat, down: real)
    requires |diff| == |rank| == d + 1 && b.Length == d + 2 && down == 1.0 / (d + 1) as real
    requires RanksWithin(rank, d)
    requires b[..] == BaryAcc(Shares(diff, d), rank, d, 0)
    modifies b
    ensures b[..] == BaryAcc(Shares(diff, d), rank, d, d + 1)
  {
    ghost var share := Shares(diff, d);
    for i := 0 to d + 1
      invariant b[..] == BaryAcc(share, rank, d, i)
    {
      var v := diff[i] * down;
      BaryAccStep(diff, rank, d, i, down);
      Transfer(b, d - rank[i], v);
    }
  }

  /** Accumulator step i in terms of the residual and the down factor. */
  lemma BaryAccStep(diff: seq<real>, rank: seq<int>, d: nat, i: int, down: real)
    requires |diff| == |rank| && 0 <= i < |diff| && down == 1.0 / (d + 1) as real
    requires RanksWithin(rank, d)
    ensures var b, p, v := BaryAcc(Shares(diff, d), rank, d, i), d - rank[i], diff[i] * down;
            BaryAcc(Shares(diff, d), rank, d, i + 1) == b[p := b[p] + v][p + 1 := b[p + 1] - v]
  {
    assert Shares(diff, d)[i] == diff[i] * down;
  }

  /** Adds `v` to accumulator `p` and subtracts it from accumulator p+1. */
  method Transfer(b: array<real>, p: int, v: real)
    requires 0 <= p < b.Length - 1
    modifies b
    ensures var s := old(b[..]); b[..] == s[p := s[p] + v][p + 1 := s[p + 1] - v]
  {
    b[p] := b[p] + v;
    b[p + 1] := b[p + 1] - v;
  }

  /* ---------------- the enclosing simplex ---------------- */

  /** What mapping one sample yields: the remainder-0 point and the ranks
      after correction, and the d+1 barycentric weights. */
  datatype SimplexPoint = SimplexPoint(rem0: seq<int>, rank: seq<int>, weights: seq<real>)

  /** The whole per-sample mapping of feature `f` (d components) with scale
      factors `scale`: the enclosing simplex and the weights of its vertices. */
  function EnclosingSimplex(f: seq<real>, scale: seq<real>): (p: SimplexPoint)
    requires |f| == |scale|
    ensures |p.rem0| == |p.rank| == |p.weights| == |f| + 1
    ensures forall i :: 0 <= i < |p.rank| ==> 0 <= p.rank[i] <= |f|
  {
    var d := |f|;
    var e := Elevation(Scaled(f, scale));
    var rem0 := Remainder0(e, d);
    var sum := IntSum(Rounded(e, d));
    var rank := Ranks(Residual(e, rem0));
    ElevationOnHyperplane(Scaled(f, scale));
    RoundedSumBound(e, d);
    RanksArePermutation(Residual(e, rem0));
    CorrectedPermutation(rank, sum, d);
    var rank' := CorrectedRanks(rank, sum, d);
    var rem0' := CorrectedRem0(rem0, rank, sum, d);
    SimplexPoint(rem0', rank', Barycentric(Residual(e, rem0'), rank', d))
  }

  /** `EnclosingSimplex` behind `depth` steps of recursion. The verifier
      unfolds one step of a recursive function per mention, so a proof that
      mentions a mapped point without needing the arithmetic of the mapping
      does not see it. */
  function Deferred(f: seq<real>, scale: seq<real>, depth: nat): (p: SimplexPoint)
    requires |f| == |scale|
    ensures |p.rem0| == |p.rank| == |p.weights| == |f| + 1
    ensures forall i :: 0 <= i < |p.rank| ==> 0 <= p.rank[i] <= |f|
  {
    if depth == 0 then EnclosingSimplex(f, scale) else Deferred(f, scale, depth - 1)
  }

  /** The mapped point of one sample, as the rest of the model refers to it. */
  function MapPoint(f: seq<real>, scale: seq<real>): (p: SimplexPoint)
    requires |f| == |scale|
    ensures |p.rem0| == |p.rank| == |p.weights| == |f| + 1
    ensures forall i :: 0 <= i < |p.rank| ==> 0 <= p.rank[i] <= |f|
  {
    Deferred(f, scale, 1)
  }

  lemma MapPointIsEnclosingSimplex(f: seq<real>, scale: seq<real>)
    requires |f| == |scale|
    ensures MapPoint(f, scale) == EnclosingSimplex(f, scale)
  {
    assert Deferred(f, scale, 1) == Deferred(f, scale, 0);
  }

  /** Maps one sample, step by step as the source does. */
  method MapSample(f: seq<real>, scale: seq<real>) returns (p: SimplexPoint)
    requires |f| == |scale|
    ensures p == MapPoint(f, scale)
  {
    MapPointIsEnclosingSimplex(f, scale);
    var d := |f|;
    var elevated := Elevate(f, scale);
    var rem0, sum := RoundToLattice(elevated, d);
    var diff := Residual(elevated, rem0);
    var rank := ComputeRanks(diff);
    ElevationOnHyperplane(Scaled(f, scale));
    RoundedSumBound(elevated, d);
    RanksArePermutation(diff);
    CorrectedPermutation(rank, sum, d);
    var rank', rem0' := CorrectRanks(rank, rem0, sum, d);
    var weights := ComputeBarycentric(Residual(elevated, rem0'), rank', d);
    p := SimplexPoint(rem0', rank', weights);
  }

  /** The mapping's guarantees: the point after correction has coordinates
      that are multiples of d+1 and sum to zero, its ranks are a permutation
      of 0..d, and its weights sum to 1. */
  lemma MapPointProperties(f: seq<real>, scale: seq<real>)
    requires |f| == |scale|
    ensures var p := MapPoint(f, scale);
            && (forall i :: 0 <= i <= |f| ==> p.rem0[i] % (|f| + 1) == 0)
            && (forall i, j :: 0 <= i < j <= |f| ==> p.rank[i] != p.rank[j])
            && Sum(p.weights) == 1.0
            && IntSum(p.rem0) == 0
  {
    MapPointIsEnclosingSimplex(f, scale);
    var d := |f|;
    var p := EnclosingSimplex(f, scale);
    var e := Elevation(Scaled(f, scale));
    var rem0 := Remainder0(e, d);
    var sum := IntSum(Rounded(e, d));
    var rank := Ranks(Residual(e, rem0));
    ElevationOnHyperplane(Scaled(f, scale));
    RoundedSumBound(e, d);
    RanksArePermutation(Residual(e, rem0));
    CorrectedPermutation(rank, sum, d);
    Remainder0OnLattice(e, d);
    CorrectedStaysOnLattice(rem0, rank, sum, d);
    WeightsSumToOne(Residual(e, p.rem0), p.rank, d);
    CorrectedOnHyperplane(e, d);
  }

  /** The mapped point lies in its simplex as the weighted sum of the
      vertices: coordinate i of vertex r is rem0[i] + Canonical(d, r, rank[i])
      (for i < d, component i of `VertexKey`), and weighting vertex r by
      weight r gives back coordinate i of the elevated point, for every
      coordinate 0..d. */
  lemma MapPointEnclosesPoint(f: seq<real>, scale: seq<real>)
    requires |f| == |scale|
    ensures var p := MapPoint(f, scale);
            forall i :: 0 <= i <= |f| ==>
              Sum(Weighted(p.weights, VertexColumn(p.rem0, p.rank, |f|, i))) == Elevation(Scaled(f, scale))[i]
  {
    var d := |f|;
    var p := MapPoint(f, scale);
    var e := Elevation(Scaled(f, scale));
    MapPointProperties(f, scale);
    MapPointIsEnclosingSimplex(f, scale);
    ElevationOnHyperplane(Scaled(f, scale));
    assert p.weights == Barycentric(Residual(e, p.rem0), p.rank, d);
    forall i | 0 <= i <= d
      ensures Sum(Weighted(p.weights, VertexColumn(p.rem0, p.rank, d, i))) == e[i]
    {
      BarycentricReproduces(e, p.rem0, p.rank, d, i);
    }
  }

  /** Moving the coordinates of a remainder-0 point along with the corrected
      ranks keeps them multiples of d+1. */
  lemma CorrectedStaysOnLattice(rem0: seq<int>, rank: seq<int>, sum: int, d: nat)
    requires |rem0| == |rank| == d + 1 && -(d + 1) <= sum <= d + 1
    requires forall i :: 0 <= i <= d ==> 0 <= rank[i] <= d && rem0[i] % (d + 1) == 0
    ensures forall i :: 0 <= i <= d ==> CorrectedRem0(rem0, rank, sum, d)[i] % (d + 1) == 0
  {
    forall i | 0 <= i <= d
      ensures CorrectedRem0(rem0, rank, sum, d)[i] % (d + 1) == 0
    {
      CorrectInRange(rank[i], sum, d);
      SumOfMultiples(rem0[i], Correct(rank[i], sum, d) - (rank[i] + sum), d + 1);
    }
  }

  lemma SumOfMultiples(a: int, b: int, n: int)
    requires n > 0 && a % n == 0 && b % n == 0
    ensures (a + b) % n == 0
  {
    DivModUnique(a + b, n, a / n + b / n, 0);
  }

  /** Every coordinate of the closest remainder-0 point is a multiple of d+1. */
  lemma Remainder0OnLattice(e: seq<real>, d: nat)
    ensures forall i :: 0 <= i < |e| ==> Remainder0(e, d)[i] % (d + 1) == 0
  {
    var v := Rounded(e, d);
    forall i | 0 <= i < |e|
      ensures Remainder0(e, d)[i] % (d + 1) == 0
    {
      DivModUnique(v[i] * (d + 1), d + 1, v[i], 0);
    }
  }

  /* ---------------- vertex keys ---------------- */

  /** The key of vertex `r` of the simplex: the first d coordinates of the
      remainder-0 point plus the canonical offsets selected by the ranks. */
  function VertexKey(rem0: seq<int>, rank: seq<int>, d: nat, r: int): (key: seq<int>)
    requires |rem0| >= d && |rank| >= d
    ensures |key| == d
  {
    seq(d, i requires 0 <= i < d => rem0[i] + Canonical(d, r, rank[i]))
  }

  /** Builds the key of vertex `r` component by component. */
  method ComputeKey(rem0: seq<int>, rank: seq<int>, d: nat, r: int) returns (key: seq<int>)
    requires |rem0| >= d && |rank| >= d
    ensures key == VertexKey(rem0, rank, d, r)
  {
    var k := new int[d];
    for i := 0 to d
      invariant forall t :: 0 <= t < i ==> k[t] == rem0[t] + Canonical(d, r, rank[t])
    {
      k[i] := rem0[i] + Canonical(d, r, rank[i]);
    }
    key := k[..];
  }

  /** Vertex 0 is the remainder-0 point itself, and every component of the
      key of vertex r is congruent to r modulo d+1, so the d+1 vertices are
      distinct lattice points when d >= 1. */
  lemma VertexKeyProperties(rem0: seq<int>, rank: seq<int>, d: nat)
    requires |rem0| == |rank| == d + 1
    requires forall i :: 0 <= i <= d ==> 0 <= rank[i] <= d && rem0[i] % (d + 1) == 0
    ensures VertexKey(rem0, rank, d, 0) == rem0[..d]
    ensures forall r, i :: 0 <= r <= d && 0 <= i < d ==> VertexKey(rem0, rank, d, r)[i] % (d + 1) == r
    ensures d >= 1 ==> forall r, s :: 0 <= r < s <= d ==> VertexKey(rem0, rank, d, r) != VertexKey(rem0, rank, d, s)
  {
    assert VertexKey(rem0, rank, d, 0) == rem0[..d];
    forall r, i | 0 <= r <= d && 0 <= i < d
      ensures VertexKey(rem0, rank, d, r)[i] % (d + 1) == r
    {
      KeyComponentRemainder(rem0[i], d, r, rank[i]);
    }
    forall r, s | 0 <= r < s <= d && d >= 1
      ensures VertexKey(rem0, rank, d, r) != VertexKey(rem0, rank, d, s)
    {
      assert VertexKey(rem0, rank, d, r)[0] % (d + 1) == r;
      assert VertexKey(rem0, rank, d, s)[0] % (d + 1) == s;
    }
  }

  lemma KeyComponentRemainder(m: int, d: nat, r: int, c: int)
    requires m % (d + 1) == 0 && 0 <= r <= d
    ensures (m + Canonical(d, r, c)) % (d + 1) == r
  {
    if c <= d - r {
      ModOfSmall(m, r, d + 1);
    } else {
      ModAddMultiple(m, -1, d + 1);
      assert -1 * (d + 1) + m == m - (d + 1);
      ModOfSmall(m - (d + 1), r, d + 1);
    }
  }

  lemma ModOfSmall(m: int, r: int, n: int)
    requires n > 0 && m % n == 0 && 0 <= r < n
    ensures (m + r) % n == r
  {
    var k := m / n;
    assert m + r == k * n + r;
    DivModUnique(m + r, n, k, r);
  }

  /* ---------------- neighbours along an axis ---------------- */

  /** The neighbour of `key` one step down along axis j: every component
      minus 1, except component j, plus d. Axis d touches no stored
      component. */
  function LowerNeighbour(key: seq<int>, j: int): (n1: seq<int>)
    ensures |n1| == |key|
  {
    seq(|key|, k requires 0 <= k < |key| => if k == j then key[k] + |key| else key[k] - 1)
  }

  /** The neighbour one step up along axis j. */
  function UpperNeighbour(key: seq<int>, j: int): (n2: seq<int>)
    ensures |n2| == |key|
  {
    seq(|key|, k requires 0 <= k < |key| => if k == j then key[k] - |key| else key[k] + 1)
  }

  /** Fills both neighbour keys in one loop, as the source does. */
  method NeighbourKeys(key: seq<int>, j: int) returns (n1: seq<int>, n2: seq<int>)
    ensures n1 == LowerNeighbour(key, j) && n2 == UpperNeighbour(key, j)
  {
    var d := |key|;
    var a := new int[d];
    var b := new int[d];
    for k := 0 to d
      invariant forall t :: 0 <= t < k ==> a[t] == key[t] - 1 && b[t] == key[t] + 1
    {
      a[k] := key[k] - 1;
      b[k] := key[k] + 1;
    }
    if 0 <= j < d {
      a[j] := key[j] + d;
      b[j] := key[j] - d;
    }
    n1, n2 := a[..], b[..];
  }

  /** The two neighbours are symmetric about the key, and stepping down then
      up (or up then down) along the same axis returns to the key. */
  lemma NeighbourSymmetry(key: seq<int>, j: int)
    ensures forall k :: 0 <= k < |key| ==> LowerNeighbour(key, j)[k] + UpperNeighbour(key, j)[k] == 2 * key[k]
    ensures UpperNeighbour(LowerNeighbour(key, j), j) == key
    ensures LowerNeighbour(UpperNeighbour(key, j), j) == key
  {
  }

  /** A neighbour of a remainder-r vertex is a remainder r-1 (lower) or
      r+1 (upper) vertex. */
  lemma NeighbourRemainder(key: seq<int>, j: int, r: int)
    requires forall k :: 0 <= k < |key| ==> key[k] % (|key| + 1) == r % (|key| + 1)
    ensures forall k :: 0 <= k < |key| ==> LowerNeighbour(key, j)[k] % (|key| + 1) == (r - 1) % (|key| + 1)
    ensures forall k :: 0 <= k < |key| ==> UpperNeighbour(key, j)[k] % (|key| + 1) == (r + 1) % (|key| + 1)
  {
    forall k | 0 <= k < |key|
      ensures LowerNeighbour(key, j)[k] % (|key| + 1) == (r - 1) % (|key| + 1)
      ensures UpperNeighbour(key, j)[k] % (|key| + 1) == (r + 1) % (|key| + 1)
    {
      NeighbourComponentRemainder(key[k], r, |key| + 1);
    }
  }

  lemma NeighbourComponentRemainder(x: int, r: int, n: int)
    requires n > 0 && x % n == r % n
    ensures (x - 1) % n == (r - 1) % n && (x + 1) % n == (r + 1) % n
    ensures (x + (n - 1)) % n == (r - 1) % n && (x - (n - 1)) % n == (r + 1) % n
  {
    ShiftMod(x, r, -1, n);
    ShiftMod(x, r, 1, n);
    ShiftMod(x, r, n - 1, n);
    ShiftMod(x, r, -(n - 1), n);
    ModAddMultiple(r - 1, 1, n);
    ModAddMultiple(r + 1, -1, n);
  }
}
